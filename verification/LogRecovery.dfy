/**
 * `DBImpl::RecoverLogFile`: replaying a log into memtables, and the proof that
 * a log cut at any byte gives back a prefix of the write groups, whole groups
 * only, under their original sequence numbers.
 */
module LogRecovery {
  import opened InternalKeys
  import opened Coding
  import opened Log
  import opened LogReader
  import opened LogSafety
  import opened WriteBatches
  import opened Compactions
  import Database

  // ----- write groups -----

  /** What one call of WriteBatchInternal::SetSequence and AddRecord puts into the log. */
  datatype Group = Group(sequence: nat, ops: seq<Operation>)

  predicate Loggable(g: Group) {
    Batchable(g.sequence, g.ops) && 0 < g.sequence + |g.ops| <= 0x1_0000_0000_0000_0000
  }

  function Records(c: Codec, groups: seq<Group>): (rs: seq<Bytes>)
    ensures |rs| == |groups|
  {
    seq(|groups|, i requires 0 <= i < |groups| => Rep(c, groups[i].sequence, groups[i].ops))
  }

  /** The comparator's order on keys, as an embedding. */
  type Order = Bytes -> UserKey

  function Abstract(order: Order, ops: seq<Operation>): (r: seq<Database.Op>)
    ensures |r| == |ops|
  {
    seq(|ops|, i requires 0 <= i < |ops| =>
      match ops[i]
      case Put(key, value) => Database.Op(order(key), Value, value)
      case Delete(key) => Database.Op(order(key), Deletion, []))
  }

  /** MemTableInserter: the entries a batch adds, numbered from its sequence number on. */
  function Inserted(order: Order, sequence: nat, ops: seq<Operation>): seq<Entry> {
    Database.Sequenced(Abstract(order, ops), sequence)
  }

  function EntriesOf(order: Order, groups: seq<Group>): (es: seq<seq<Entry>>)
    ensures |es| == |groups|
  {
    seq(|groups|, i requires 0 <= i < |groups| => Inserted(order, groups[i].sequence, groups[i].ops))
  }

  function LastOf(g: Group): int {
    g.sequence + |g.ops| - 1
  }

  function MaxSequence(groups: seq<Group>, start: nat): nat
    requires forall g <- groups :: Loggable(g)
  {
    if groups == [] then start
    else
      MaxSequence(groups[1..], if LastOf(groups[0]) > start then LastOf(groups[0]) else start)
  }

  // ----- RecoverLogFile -----

  /** `chunks` are the memtables written out so far, `mem` the one being filled; `full` is the size test. */
  datatype Replayed = Replayed(chunks: seq<seq<Entry>>, mem: Option<seq<Entry>>, maxSequence: nat, status: Status)

  datatype Settings = Settings(c: Codec, order: Order, full: seq<Entry> -> bool, paranoid: bool)

  /** The loop body for one record. */
  function ReplayOne(opts: Settings, st: Replayed, record: Bytes): Replayed {
    if |record| < BATCH_HEADER then
      if opts.paranoid then st.(status := Corruption("log record too small")) else st
    else
      var (ops, status) := Iterated(opts.c, record);
      var mem := (if st.mem.Some? then st.mem.value else []) + Inserted(opts.order, Sequence(opts.c, record), ops);
      if !status.Ok? && opts.paranoid then st.(mem := Some(mem), status := status)
      else
        var last := (Sequence(opts.c, record) + Count(opts.c, record) - 1) % 0x1_0000_0000_0000_0000;
        var max := if last > st.maxSequence then last else st.maxSequence;
        if opts.full(mem) then Replayed(st.chunks + [mem], None, max, Ok)
        else Replayed(st.chunks, Some(mem), max, Ok)
  }

  /** What reading from r on does to st; a reported corruption ends a paranoid replay. */
  function Recovered(opts: Settings, crc: Checksum, r: Reader, st: Replayed): Replayed
    requires r.next <= |r.file|
    decreases Left(r)
  {
    var (record, s) := ReadFrom(crc, r, None);
    var now := if opts.paranoid && |s.drops| != |r.drops| && st.status.Ok? then st.(status := Corruption("log")) else st;
    if record.None? || !now.status.Ok? then now
    else Recovered(opts, crc, s, ReplayOne(opts, now, record.value))
  }

  /** The memtable left over is written out too, unless the replay failed. */
  function Finished(st: Replayed): seq<seq<Entry>> {
    if st.mem.Some? && st.status.Ok? then st.chunks + [st.mem.value] else st.chunks
  }

  method RecoverLogFile(opts: Settings, crc: Checksum, file: Bytes, maxSequence: nat) returns (chunks: seq<seq<Entry>>, max: nat, status: Status)
    ensures var st := Recovered(opts, crc, Open(file), Replayed([], None, maxSequence, Ok));
      chunks == Finished(st) && max == st.maxSequence && status == st.status
  {
    var reader := new LogReader(crc, file);
    var st := Replayed([], None, maxSequence, Ok);
    var done := false;
    while !done
      invariant reader.Valid() && reader.crc == crc
      invariant Recovered(opts, crc, Open(file), Replayed([], None, maxSequence, Ok)) ==
          if done then st else Recovered(opts, crc, reader.State(), st)
      decreases !done, Left(reader.State())
    {
      var reported := |reader.drops|;
      var record := reader.ReadRecord();
      if opts.paranoid && |reader.drops| != reported && st.status.Ok? {
        st := st.(status := Corruption("log"));
      }
      if record.None? || !st.status.Ok? {
        done := true;
      } else {
        st := ReplayOne(opts, st, record.value);
      }
    }
    chunks := if st.mem.Some? && st.status.Ok? then st.chunks + [st.mem.value] else st.chunks;
    max, status := st.maxSequence, st.status;
  }

  // ----- what replay recovers -----

  /** Everything inserted so far, in order. */
  function Flat(st: Replayed): seq<Entry> {
    Concat(st.chunks) + if st.mem.Some? then st.mem.value else []
  }

  /** What a well-formed record does, whatever its bytes. */
  lemma ReplayGoodRecord(opts: Settings, st: Replayed, record: Bytes, g: Group)
    requires st.status.Ok? && |record| >= BATCH_HEADER && 0 < g.sequence + |g.ops| <= 0x1_0000_0000_0000_0000
    requires Iterated(opts.c, record) == (g.ops, Ok)
    requires Sequence(opts.c, record) == g.sequence && Count(opts.c, record) == |g.ops|
    ensures var st' := ReplayOne(opts, st, record);
      var mem := (if st.mem.Some? then st.mem.value else []) + Inserted(opts.order, g.sequence, g.ops);
      st'.status.Ok? &&
      st'.maxSequence == (if LastOf(g) > st.maxSequence then LastOf(g) else st.maxSequence) &&
      if opts.full(mem) then st'.chunks == st.chunks + [mem] && st'.mem == None
      else st'.chunks == st.chunks && st'.mem == Some(mem)
  {
  }

  lemma FlatGrows(st: Replayed, more: seq<Entry>, st': Replayed)
    requires var mem := (if st.mem.Some? then st.mem.value else []) + more;
      (st'.chunks == st.chunks + [mem] && st'.mem == None) || (st'.chunks == st.chunks && st'.mem == Some(mem))
    ensures Flat(st') == Flat(st) + more
  {
    var mem := if st.mem.Some? then st.mem.value else [];
    ConcatAppend(st.chunks, mem + more);
    assert Concat(st.chunks) + mem + more == Concat(st.chunks) + (mem + more);
  }

  lemma ReplayGroup(opts: Settings, st: Replayed, g: Group)
    requires st.status.Ok? && Loggable(g)
    ensures var st' := ReplayOne(opts, st, Rep(opts.c, g.sequence, g.ops));
      st'.status.Ok? && Flat(st') == Flat(st) + Inserted(opts.order, g.sequence, g.ops) &&
      st'.maxSequence == if LastOf(g) > st.maxSequence then LastOf(g) else st.maxSequence
  {
    BatchRoundTrip(opts.c, g.sequence, g.ops);
    var record := Rep(opts.c, g.sequence, g.ops);
    ReplayGoodRecord(opts, st, record, g);
    FlatGrows(st, Inserted(opts.order, g.sequence, g.ops), ReplayOne(opts, st, record));
  }

  lemma ConcatOne(one: seq<seq<Entry>>)
    requires |one| == 1
    ensures Concat(one) == one[0]
  {
    assert one[..0] == [];
  }

  lemma ConcatCons(first: seq<Entry>, rest: seq<seq<Entry>>)
    ensures Concat([first] + rest) == first + Concat(rest)
  {
    var all := [first] + rest;
    Database.ConcatSplit(all, 1);
    ConcatOne(all[..1]);
    assert all[1..] == rest;
  }

  lemma EntriesCons(order: Order, groups: seq<Group>)
    requires groups != []
    ensures Concat(EntriesOf(order, groups))
         == Inserted(order, groups[0].sequence, groups[0].ops) + Concat(EntriesOf(order, groups[1..]))
  {
    var first := Inserted(order, groups[0].sequence, groups[0].ops);
    ConcatCons(first, EntriesOf(order, groups[1..]));
    assert EntriesOf(order, groups) == [first] + EntriesOf(order, groups[1..]);
  }

  /** Replay from st inserts exactly these groups, in order, and takes the greatest sequence number. */
  predicate Replays(order: Order, st: Replayed, groups: seq<Group>, out: Replayed)
    requires forall g <- groups :: Loggable(g)
  {
    out.status.Ok? && Flat(out) == Flat(st) + Concat(EntriesOf(order, groups)) &&
    out.maxSequence == MaxSequence(groups, st.maxSequence)
  }

  lemma ReplaysCons(order: Order, st: Replayed, mid: Replayed, groups: seq<Group>, out: Replayed)
    requires groups != [] && forall g <- groups :: Loggable(g)
    requires Flat(mid) == Flat(st) + Inserted(order, groups[0].sequence, groups[0].ops)
    requires mid.maxSequence == if LastOf(groups[0]) > st.maxSequence then LastOf(groups[0]) else st.maxSequence
    requires Replays(order, mid, groups[1..], out)
    ensures Replays(order, st, groups, out)
  {
    EntriesCons(order, groups);
    var first := Inserted(order, groups[0].sequence, groups[0].ops);
    var rest := Concat(EntriesOf(order, groups[1..]));
    assert Flat(st) + first + rest == Flat(st) + (first + rest);
  }

  /** Unfolding one record of a log that reads without a report. */
  lemma RecoveredStep(opts: Settings, crc: Checksum, r: Reader, st: Replayed)
    requires r.next <= |r.file| && st.status.Ok? && |ReadAll(crc, r).1.drops| == |r.drops|
    ensures var (records, _) := ReadAll(crc, r);
      var (record, s) := ReadFrom(crc, r, None);
      |s.drops| == |r.drops| &&
      if records == [] then Recovered(opts, crc, r, st) == st
      else record == Some(records[0]) && ReadAll(crc, s).0 == records[1..] && ReadAll(crc, s).1 == ReadAll(crc, r).1 &&
           Recovered(opts, crc, r, st) == Recovered(opts, crc, s, ReplayOne(opts, st, records[0]))
  {
    var (record, s) := ReadFrom(crc, r, None);
    ReadAllStep(crc, r, record, s);
  }

  lemma {:induction false} RecoverRecords(opts: Settings, crc: Checksum, r: Reader, st: Replayed, groups: seq<Group>)
    requires r.next <= |r.file| && st.status.Ok? && forall g <- groups :: Loggable(g)
    requires ReadAll(crc, r).0 == Records(opts.c, groups) && |ReadAll(crc, r).1.drops| == |r.drops|
    ensures Replays(opts.order, st, groups, Recovered(opts, crc, r, st))
    decreases |groups|
  {
    RecoveredStep(opts, crc, r, st);
    if groups != [] {
      var s := ReadFrom(crc, r, None).1;
      var g := groups[0];
      var mid := ReplayOne(opts, st, Rep(opts.c, g.sequence, g.ops));
      ReplayGroup(opts, st, g);
      assert Records(opts.c, groups)[1..] == Records(opts.c, groups[1..]);
      RecoverRecords(opts, crc, s, mid, groups[1..]);
      ReplaysCons(opts.order, st, mid, groups, Recovered(opts, crc, r, st));
    }
  }

  // ----- what the entries mean -----

  /** One operation as an entry: a put is a value, a delete a deletion without one. */
  ghost predicate IsEntry(order: Order, op: Operation, number: nat, e: Entry) {
    && e.key.user == order(op.key) && e.key.seqno == number
    && (op.Put? ==> e.key.kind == ValueType.Value && e.value == op.value)
    && (op.Delete? ==> e.key.kind == Deletion && e.value == [])
  }

  /** A batch's entries: its operations in order under consecutive numbers. */
  ghost predicate AreEntries(order: Order, sequence: nat, ops: seq<Operation>, es: seq<Entry>) {
    |es| == |ops| && forall i :: 0 <= i < |ops| ==> IsEntry(order, ops[i], sequence + i, es[i])
  }

  /** `parts` are the entries of these groups, group by group. */
  ghost predicate PartsOf(order: Order, groups: seq<Group>, parts: seq<seq<Entry>>) {
    |parts| == |groups| && forall i :: 0 <= i < |groups| ==> AreEntries(order, groups[i].sequence, groups[i].ops, parts[i])
  }

  lemma InsertedAreEntries(order: Order, sequence: nat, ops: seq<Operation>)
    ensures AreEntries(order, sequence, ops, Inserted(order, sequence, ops))
  {
  }

  lemma EntriesArePartsOf(order: Order, groups: seq<Group>)
    ensures PartsOf(order, groups, EntriesOf(order, groups))
  {
    forall i | 0 <= i < |groups| ensures AreEntries(order, groups[i].sequence, groups[i].ops, EntriesOf(order, groups)[i]) {
      InsertedAreEntries(order, groups[i].sequence, groups[i].ops);
    }
  }

  /**
   * Crash safety: whatever byte the log is cut at, recovery succeeds and
   * inserts exactly the groups that are whole in it, in order and under their
   * own sequence numbers, and the greatest of those numbers is what it returns.
   */
  lemma CutLogRecoversWholeGroups(opts: Settings, crc: Checksum, groups: seq<Group>, n: nat, maxSequence: nat) returns (parts: seq<seq<Entry>>)
    requires forall g <- groups :: Loggable(g)
    requires n <= |LogBytes(Writes(crc), 0, Records(opts.c, groups))|
    ensures var log := LogBytes(Writes(crc), 0, Records(opts.c, groups));
      var k := Whole(Writes(crc), 0, Records(opts.c, groups), n);
      var out := Recovered(opts, crc, Open(log[..n]), Replayed([], None, maxSequence, Ok));
      && out.status == Ok
      && Concat(Finished(out)) == Concat(parts) && PartsOf(opts.order, groups[..k], parts)
      && out.maxSequence == MaxSequence(groups[..k], maxSequence)
  {
    var records, write := Records(opts.c, groups), Writes(crc);
    var file := LogBytes(write, 0, records)[..n];
    var k := Whole(write, 0, records, n);
    WriterReadsBack(crc);
    ReadRecords(crc, write, Open(file), 0, records);
    assert Records(opts.c, groups[..k]) == records[..k];
    var st := Replayed([], None, maxSequence, Ok);
    RecoverRecords(opts, crc, Open(file), st, groups[..k]);
    FinishedIsFlat(Recovered(opts, crc, Open(file), st));
    parts := EntriesOf(opts.order, groups[..k]);
    EntriesArePartsOf(opts.order, groups[..k]);
    assert Flat(st) + Concat(parts) == Concat(parts);
  }

  /** The user's map: puts and deletes applied in order. */
  function Applied(m: map<Bytes, Bytes>, ops: seq<Operation>): map<Bytes, Bytes> {
    if ops == [] then m
    else
      var n := |ops| - 1;
      match ops[n]
      case Put(key, value) => Applied(m, ops[..n])[key := value]
      case Delete(key) => Applied(m, ops[..n]) - {key}
  }

  function GroupsApplied(groups: seq<Group>): map<Bytes, Bytes> {
    if groups == [] then map[]
    else Applied(GroupsApplied(groups[..|groups| - 1]), groups[|groups| - 1].ops)
  }

  /** The replayed map holds, under the keys' places in the order, what the user's map holds. */
  ghost predicate SameMap(order: Order, a: map<UserKey, Bytes>, m: map<Bytes, Bytes>) {
    forall key: Bytes :: Database.Lookup(a, order(key)) == if key in m then Some(m[key]) else None
  }

  ghost predicate Injective(order: Order) {
    forall a: Bytes, b: Bytes :: order(a) == order(b) ==> a == b
  }

  lemma OneApplied(order: Order, h: seq<Entry>, m: map<Bytes, Bytes>, op: Operation, e: Entry, snapshot: nat)
    requires Injective(order) && SameMap(order, Database.Replay(h, snapshot), m)
    requires IsEntry(order, op, e.key.seqno, e) && e.key.seqno <= snapshot
    ensures SameMap(order, Database.Replay(h + [e], snapshot), Applied(m, [op]))
  {
    assert (h + [e])[..|h|] == h;
    assert [op][..0] == [] && Applied(m, []) == m;
  }

  lemma {:induction false} AppliedNext(m: map<Bytes, Bytes>, ops: seq<Operation>, n: nat)
    requires |ops| == n + 1
    ensures Applied(m, ops) == Applied(Applied(m, ops[..n]), [ops[n]])
  {
    assert [ops[n]][..0] == [];
    assert Applied(Applied(m, ops[..n]), []) == Applied(m, ops[..n]);
  }

  lemma {:induction false} PartApplied(order: Order, h: seq<Entry>, m: map<Bytes, Bytes>, sequence: nat, ops: seq<Operation>, es: seq<Entry>, snapshot: nat)
    requires Injective(order) && SameMap(order, Database.Replay(h, snapshot), m)
    requires AreEntries(order, sequence, ops, es) && sequence + |ops| <= snapshot + 1
    ensures SameMap(order, Database.Replay(h + es, snapshot), Applied(m, ops))
    decreases |ops|
  {
    if ops == [] {
      assert h + es == h;
    } else {
      var n := |ops| - 1;
      PartApplied(order, h, m, sequence, ops[..n], es[..n], snapshot);
      OneApplied(order, h + es[..n], Applied(m, ops[..n]), ops[n], es[n], snapshot);
      AppliedNext(m, ops, n);
      Snoc(h, es, n);
    }
  }

  lemma Snoc(h: seq<Entry>, es: seq<Entry>, n: nat)
    requires |es| == n + 1
    ensures h + es == h + es[..n] + [es[n]]
  {
  }

  ghost predicate UpTo(groups: seq<Group>, snapshot: nat) {
    forall g <- groups :: g.sequence + |g.ops| <= snapshot + 1
  }

  lemma {:induction false} GroupsReplayed(order: Order, groups: seq<Group>, parts: seq<seq<Entry>>, snapshot: nat)
    requires Injective(order) && PartsOf(order, groups, parts) && UpTo(groups, snapshot)
    ensures SameMap(order, Database.Replay(Concat(parts), snapshot), GroupsApplied(groups))
    decreases |groups|
  {
    if groups != [] {
      var n := |groups| - 1;
      assert groups == groups[..n] + [groups[n]] && groups[n] in groups;
      GroupsReplayed(order, groups[..n], parts[..n], snapshot);
      PartApplied(order, Concat(parts[..n]), GroupsApplied(groups[..n]), groups[n].sequence, groups[n].ops, parts[n], snapshot);
    }
  }

  lemma {:induction false} UpToLast(groups: seq<Group>, start: nat)
    requires Consecutive(groups, start)
    ensures UpTo(groups, start + Total(groups))
    decreases |groups|
  {
    if groups != [] {
      UpToLast(groups[1..], start + |groups[0].ops|);
      assert groups == [groups[0]] + groups[1..];
    }
  }

  lemma {:induction false} ConsecutivePrefix(groups: seq<Group>, start: nat, k: nat)
    requires Consecutive(groups, start) && k <= |groups|
    ensures Consecutive(groups[..k], start)
    decreases k
  {
    if k > 0 {
      ConsecutivePrefix(groups[1..], start + |groups[0].ops|, k - 1);
      assert groups[..k][1..] == groups[1..][..k - 1];
    }
  }

  /**
   * What the user gets back after a crash: for consecutively numbered groups,
   * the recovered entries read at the recovered sequence number are the map of
   * the whole groups' puts and deletes, applied in order.
   */
  lemma RecoveredReadsAsMap(opts: Settings, crc: Checksum, groups: seq<Group>, n: nat, start: nat)
    requires (forall g <- groups :: Loggable(g)) && Consecutive(groups, start) && Injective(opts.order)
    requires n <= |LogBytes(Writes(crc), 0, Records(opts.c, groups))|
    ensures var log := LogBytes(Writes(crc), 0, Records(opts.c, groups));
      var k := Whole(Writes(crc), 0, Records(opts.c, groups), n);
      var out := Recovered(opts, crc, Open(log[..n]), Replayed([], None, start, Ok));
      && out.maxSequence == start + Total(groups[..k])
      && SameMap(opts.order, Database.Replay(Concat(Finished(out)), out.maxSequence), GroupsApplied(groups[..k]))
  {
    var k := Whole(Writes(crc), 0, Records(opts.c, groups), n);
    var parts := CutLogRecoversWholeGroups(opts, crc, groups, n, start);
    ConsecutivePrefix(groups, start, k);
    PartsReadAsMap(opts.order, groups[..k], parts, start);
  }

  lemma PartsReadAsMap(order: Order, groups: seq<Group>, parts: seq<seq<Entry>>, start: nat)
    requires (forall g <- groups :: Loggable(g)) && Consecutive(groups, start) && Injective(order) && PartsOf(order, groups, parts)
    ensures MaxSequence(groups, start) == start + Total(groups)
    ensures SameMap(order, Database.Replay(Concat(parts), MaxSequence(groups, start)), GroupsApplied(groups))
  {
    RecoveredSequenceIsLast(groups, start);
    UpToLast(groups, start);
    GroupsReplayed(order, groups, parts, start + Total(groups));
  }

  lemma FinishedIsFlat(st: Replayed)
    requires st.status.Ok?
    ensures Concat(Finished(st)) == Flat(st)
  {
    if st.mem.Some? {
      ConcatAppend(st.chunks, st.mem.value);
    }
  }

  /** Groups numbered in consecutive blocks after `start`, as DBImpl::Write numbers them. */
  predicate Consecutive(groups: seq<Group>, start: nat) {
    groups == [] || (groups[0].sequence == start + 1 && Consecutive(groups[1..], start + |groups[0].ops|))
  }

  function Total(groups: seq<Group>): nat {
    if groups == [] then 0 else |groups[0].ops| + Total(groups[1..])
  }

  /** For consecutive groups the recovered sequence number is that of the last operation recovered. */
  lemma {:induction false} RecoveredSequenceIsLast(groups: seq<Group>, start: nat)
    requires (forall g <- groups :: Loggable(g)) && Consecutive(groups, start)
    ensures MaxSequence(groups, start) == start + Total(groups)
    decreases |groups|
  {
    if groups != [] {
      RecoveredSequenceIsLast(groups[1..], start + |groups[0].ops|);
    }
  }

  // ----- records that are no batches -----

  /** The loop over a list of records, up to the first failure. */
  function ReplayAll(opts: Settings, st: Replayed, records: seq<Bytes>): Replayed
    decreases |records|
  {
    if records == [] || !st.status.Ok? then st else ReplayAll(opts, ReplayOne(opts, st, records[0]), records[1..])
  }

  lemma RecoveredFails(opts: Settings, crc: Checksum, r: Reader, st: Replayed)
    requires r.next <= |r.file| && !st.status.Ok?
    ensures Recovered(opts, crc, r, st) == st
  {
  }

  lemma {:induction false} RecoveredIsReplayAll(opts: Settings, crc: Checksum, r: Reader, st: Replayed)
    requires r.next <= |r.file| && st.status.Ok? && |ReadAll(crc, r).1.drops| == |r.drops|
    ensures Recovered(opts, crc, r, st) == ReplayAll(opts, st, ReadAll(crc, r).0)
    decreases |ReadAll(crc, r).0|
  {
    RecoveredStep(opts, crc, r, st);
    var records := ReadAll(crc, r).0;
    if records != [] {
      var s := ReadFrom(crc, r, None).1;
      var next := ReplayOne(opts, st, records[0]);
      if next.status.Ok? {
        RecoveredIsReplayAll(opts, crc, s, next);
      } else {
        RecoveredFails(opts, crc, s, next);
      }
    }
  }

  /** A record long enough for a header, with exactly the operations its count announces. */
  predicate IsBatch(c: Codec, record: Bytes) {
    |record| >= 12 && Iterated(c, record).1.Ok?
  }

  /** What a record contributes: nothing if it is too short, else its operations up to the first malformed one. */
  ghost predicate Contributes(c: Codec, order: Order, record: Bytes, es: seq<Entry>) {
    if |record| < 12 then es == []
    else AreEntries(order, c.getFixed(record[..8]), Iterated(c, record).0, es)
  }

  ghost predicate AllContribute(c: Codec, order: Order, records: seq<Bytes>, parts: seq<seq<Entry>>) {
    |parts| == |records| && forall i :: 0 <= i < |records| ==> Contributes(c, order, records[i], parts[i])
  }

  function Contribution(opts: Settings, record: Bytes): seq<Entry> {
    if |record| < 12 then [] else Inserted(opts.order, Sequence(opts.c, record), Iterated(opts.c, record).0)
  }

  function Contributions(opts: Settings, records: seq<Bytes>): (parts: seq<seq<Entry>>)
    ensures |parts| == |records|
  {
    seq(|records|, i requires 0 <= i < |records| => Contribution(opts, records[i]))
  }

  lemma ContributionsContribute(opts: Settings, records: seq<Bytes>)
    ensures AllContribute(opts.c, opts.order, records, Contributions(opts, records))
  {
    forall i | 0 <= i < |records| ensures Contributes(opts.c, opts.order, records[i], Contributions(opts, records)[i]) {
      if |records[i]| >= 12 {
        InsertedAreEntries(opts.order, Sequence(opts.c, records[i]), Iterated(opts.c, records[i]).0);
      }
    }
  }

  lemma ReplayAnyRecord(opts: Settings, st: Replayed, record: Bytes)
    requires st.status.Ok?
    ensures var next := ReplayOne(opts, st, record);
      && (next.status.Ok? <==> !opts.paranoid || IsBatch(opts.c, record))
      && (next.status.Ok? ==> Flat(next) == Flat(st) + Contribution(opts, record))
  {
    var next := ReplayOne(opts, st, record);
    if |record| >= 12 && next.status.Ok? {
      FlatGrows(st, Contribution(opts, record), next);
    }
  }

  lemma ContributionsCons(opts: Settings, records: seq<Bytes>)
    requires records != []
    ensures Concat(Contributions(opts, records)) == Contribution(opts, records[0]) + Concat(Contributions(opts, records[1..]))
  {
    ConcatCons(Contribution(opts, records[0]), Contributions(opts, records[1..]));
    HeadAndTail(Contributions(opts, records), Contribution(opts, records[0]), Contributions(opts, records[1..]));
  }

  lemma HeadAndTail<T>(all: seq<T>, first: T, rest: seq<T>)
    requires |all| == |rest| + 1 && all[0] == first && forall i :: 0 <= i < |rest| ==> all[i + 1] == rest[i]
    ensures all == [first] + rest
  {
  }

  ghost predicate AllBatches(c: Codec, records: seq<Bytes>) {
    forall record <- records :: IsBatch(c, record)
  }

  lemma AllBatchesCons(c: Codec, records: seq<Bytes>)
    requires records != []
    ensures AllBatches(c, records) <==> IsBatch(c, records[0]) && AllBatches(c, records[1..])
  {
    assert records == [records[0]] + records[1..];
  }

  /** `out` is what a replay gives: `good` says whether all records are batches, `es` what they contribute. */
  predicate ReplaysAny(paranoid: bool, st: Replayed, good: bool, es: seq<Entry>, out: Replayed) {
    (out.status.Ok? <==> !paranoid || good) && (out.status.Ok? ==> Flat(out) == Flat(st) + es)
  }

  lemma FlatJoins(st: Replayed, next: Replayed, out: Replayed, es: seq<Entry>, more: seq<Entry>)
    requires Flat(next) == Flat(st) + es && Flat(out) == Flat(next) + more
    ensures Flat(out) == Flat(st) + (es + more)
  {
  }

  lemma {:induction false} ReplayAnyRecords(opts: Settings, st: Replayed, records: seq<Bytes>)
    requires st.status.Ok?
    ensures ReplaysAny(opts.paranoid, st, AllBatches(opts.c, records), Concat(Contributions(opts, records)), ReplayAll(opts, st, records))
    decreases |records|
  {
    if records != [] {
      ReplayAnyRecord(opts, st, records[0]);
      AllBatchesCons(opts.c, records);
      ContributionsCons(opts, records);
      var next := ReplayOne(opts, st, records[0]);
      if next.status.Ok? {
        ReplayAnyRecords(opts, next, records[1..]);
        var out := ReplayAll(opts, next, records[1..]);
        if out.status.Ok? {
          FlatJoins(st, next, out, Contribution(opts, records[0]), Concat(Contributions(opts, records[1..])));
        }
      }
    }
  }

  /**
   * Any records at all, cut at any byte: a lenient replay succeeds and inserts,
   * in order, the operations of every whole record up to its first malformed
   * one; a paranoid replay succeeds exactly if every whole record is a batch.
   */
  lemma AnyLogIsReplayed(opts: Settings, crc: Checksum, records: seq<Bytes>, n: nat, maxSequence: nat) returns (parts: seq<seq<Entry>>)
    requires n <= |LogBytes(Writes(crc), 0, records)|
    ensures var k := Whole(Writes(crc), 0, records, n);
      var out := Recovered(opts, crc, Open(LogBytes(Writes(crc), 0, records)[..n]), Replayed([], None, maxSequence, Ok));
      && AllContribute(opts.c, opts.order, records[..k], parts)
      && (out.status.Ok? <==> !opts.paranoid || AllBatches(opts.c, records[..k]))
      && (out.status.Ok? ==> Concat(Finished(out)) == Concat(parts))
  {
    var write := Writes(crc);
    var file := LogBytes(write, 0, records)[..n];
    var k := Whole(write, 0, records, n);
    WriterReadsBack(crc);
    ReadRecords(crc, write, Open(file), 0, records);
    var st := Replayed([], None, maxSequence, Ok);
    RecoveredIsReplayAll(opts, crc, Open(file), st);
    ReplayAnyRecords(opts, st, records[..k]);
    parts := Contributions(opts, records[..k]);
    ContributionsContribute(opts, records[..k]);
    assert Flat(st) + Concat(parts) == Concat(parts);
    if ReplayAll(opts, st, records[..k]).status.Ok? {
      FinishedIsFlat(ReplayAll(opts, st, records[..k]));
    }
  }

  /** Memtables are written out exactly when the size test says so. */
  ghost predicate CutWhereFull(opts: Settings, st: Replayed) {
    (forall chunk <- st.chunks :: opts.full(chunk)) && (st.status.Ok? && st.mem.Some? ==> !opts.full(st.mem.value))
  }

  /** Every memtable written before the end of the log was full, and the one left over is not. */
  lemma {:induction false} FullMemtablesAreWritten(opts: Settings, crc: Checksum, r: Reader, st: Replayed)
    requires r.next <= |r.file| && CutWhereFull(opts, st)
    ensures CutWhereFull(opts, Recovered(opts, crc, r, st))
    decreases Left(r)
  {
    var (record, s) := ReadFrom(crc, r, None);
    var now := if opts.paranoid && |s.drops| != |r.drops| && st.status.Ok? then st.(status := Corruption("log")) else st;
    if record.Some? && now.status.Ok? {
      FullMemtablesAreWritten(opts, crc, s, ReplayOne(opts, now, record.value));
    }
  }
}
