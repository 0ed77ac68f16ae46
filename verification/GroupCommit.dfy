/**
 * Group commit: the writer queue, `BuildBatchGroup`, and `DBImpl::Write` as a
 * machine whose steps are the points between which the mutex may be released.
 *
 * Writers are numbered by arrival. The queue is first in, first out, so the
 * writers still queued are those from `head` on.
 */
module GroupCommit {
  import opened InternalKeys
  import opened WriteBatches

  /** A null batch asks for a memtable switch only. */
  datatype Writer = Writer(batch: Option<seq<Operation>>, sync: bool)

  function OpsOf(q: seq<Writer>): seq<Operation> {
    if q == [] then [] else OpsOf(q[..|q| - 1]) + (if q[|q| - 1].batch.Some? then q[|q| - 1].batch.value else [])
  }

  // ----- BuildBatchGroup -----

  /** WriteBatchInternal::ByteSize of a batch of these operations. */
  type Sizes = seq<Operation> -> nat

  function ByteSize(bytes: Sizes, w: Writer): nat {
    if w.batch.Some? then bytes(w.batch.value) else 0
  }

  function TotalSize(bytes: Sizes, q: seq<Writer>): nat {
    if q == [] then 0 else TotalSize(bytes, q[..|q| - 1]) + ByteSize(bytes, q[|q| - 1])
  }

  /** A small first write limits the growth of its group. */
  function MaxSize(first: nat): nat {
    if first <= 0x20000 then first + 0x20000 else 0x100000
  }

  /** Writer k may not ride in the group led by the front of the queue. */
  predicate Refused(bytes: Sizes, q: seq<Writer>, k: nat)
    requires 0 < k < |q|
  {
    (q[k].sync && !q[0].sync) ||
    (q[k].batch.Some? && TotalSize(bytes, q[..k + 1]) > MaxSize(ByteSize(bytes, q[0])))
  }

  /** The group is the longest prefix of the queue none of whose followers is refused. */
  ghost predicate IsGroup(bytes: Sizes, q: seq<Writer>, k: nat) {
    && 1 <= k <= |q|
    && (forall j: nat :: 0 < j < k ==> !Refused(bytes, q, j))
    && (k < |q| ==> Refused(bytes, q, k))
  }

  /** The first k writers fit together; `size` and `ops` are theirs. */
  ghost predicate Growing(bytes: Sizes, q: seq<Writer>, k: nat, size: nat, ops: seq<Operation>) {
    && 1 <= k <= |q|
    && (forall j: nat :: 0 < j < k ==> !Refused(bytes, q, j))
    && size == TotalSize(bytes, q[..k]) && ops == OpsOf(q[..k])
  }

  ghost predicate Follows(q: seq<Writer>, k: nat) {
    exists j :: 0 < j < k <= |q| && q[j].batch.Some?
  }

  /** Returns the group's batch and how many writers it serves; `tmp` is tmp_batch_ afterwards. */
  method BuildBatchGroup(bytes: Sizes, writers: seq<Writer>) returns (ops: seq<Operation>, k: nat, tmp: seq<Operation>)
    requires writers != [] && writers[0].batch.Some?
    ensures IsGroup(bytes, writers, k) && ops == OpsOf(writers[..k])
    ensures tmp == if Follows(writers, k) then ops else []
  {
    var first := writers[0];
    var size: nat := ByteSize(bytes, first);
    var maxSize := MaxSize(size);
    var useTmp := false;
    ops, tmp, k := first.batch.value, [], 1;
    SingletonGroup(bytes, writers);
    while k < |writers|
      invariant Growing(bytes, writers, k, size, ops)
      invariant useTmp == Follows(writers, k)
      invariant tmp == if useTmp then ops else []
    {
      var w := writers[k];
      GroupGrows(bytes, writers, k);
      if w.sync && !first.sync {
        break;
      }
      if w.batch.Some? {
        size := size + ByteSize(bytes, w);
        if size > maxSize {
          break;
        }
        if !useTmp {
          useTmp := true;
          tmp := ops;
        }
        tmp := tmp + w.batch.value;
        ops := tmp;
      }
      k := k + 1;
    }
  }

  lemma SingletonGroup(bytes: Sizes, q: seq<Writer>)
    requires q != [] && q[0].batch.Some?
    ensures Growing(bytes, q, 1, ByteSize(bytes, q[0]), q[0].batch.value) && !Follows(q, 1)
  {
    assert q[..1][..0] == [];
    assert !Follows(q, 1);
  }

  lemma GroupGrows(bytes: Sizes, q: seq<Writer>, k: nat)
    requires k < |q|
    ensures TotalSize(bytes, q[..k + 1]) == TotalSize(bytes, q[..k]) + ByteSize(bytes, q[k])
    ensures OpsOf(q[..k + 1]) == OpsOf(q[..k]) + if q[k].batch.Some? then q[k].batch.value else []
    ensures q[k].batch.None? ==> OpsOf(q[..k + 1]) == OpsOf(q[..k])
    ensures 0 < k ==> (Follows(q, k + 1) <==> Follows(q, k) || q[k].batch.Some?)
  {
    assert q[..k + 1][..k] == q[..k];
    if 0 < k && Follows(q, k) {
      var j :| 0 < j < k && q[j].batch.Some?;
      assert 0 < j < k + 1 && q[j].batch.Some?;
    }
  }

  /**
   * A group stays small, and ends only for a reason: with a first batch of up to
   * 128 KB it grows by at most as much, else to at most 1 MB unless the first
   * alone is larger; it takes no sync writer under a leader that is not one.
   */
  lemma GroupLimits(bytes: Sizes, q: seq<Writer>, k: nat)
    requires q != [] && q[0].batch.Some? && IsGroup(bytes, q, k)
    ensures var first := bytes(q[0].batch.value);
      var limit := if first <= 131072 then first + 131072 else 1048576;
      && (TotalSize(bytes, q[..k]) <= limit || TotalSize(bytes, q[..k]) == first)
      && (forall i :: 0 < i < k && q[i].sync ==> q[0].sync)
      && (k < |q| ==> (q[k].sync && !q[0].sync) || (q[k].batch.Some? && TotalSize(bytes, q[..k]) + bytes(q[k].batch.value) > limit))
  {
    GroupTotal(bytes, q, k);
    forall i: nat | 0 < i < k && q[i].sync ensures q[0].sync {
      assert !Refused(bytes, q, i);
    }
    if k < |q| {
      GroupGrows(bytes, q, k);
      assert Refused(bytes, q, k);
    }
  }

  lemma {:induction false} GroupTotal(bytes: Sizes, q: seq<Writer>, k: nat)
    requires 1 <= k <= |q| && forall j: nat :: 0 < j < k ==> !Refused(bytes, q, j)
    ensures TotalSize(bytes, q[..k]) <= MaxSize(ByteSize(bytes, q[0])) || TotalSize(bytes, q[..k]) == ByteSize(bytes, q[0])
    decreases k
  {
    GroupGrows(bytes, q, k - 1);
    if k == 1 {
      assert q[..0] == [];
    } else {
      GroupTotal(bytes, q, k - 1);
      assert !Refused(bytes, q, k - 1);
      assert q[..k - 1 + 1] == q[..k];
    }
  }

  // ----- the machine -----

  /** A logged group: writers from..from + count, operations numbered from `first` on. */
  datatype Group = Group(from: nat, count: nat, first: nat, ops: seq<Operation>)

  datatype Stage = Logging | Syncing | Inserting(done: nat) | Aborted(syncError: bool)

  datatype Phase = Idle | Busy(group: Group, stage: Stage)

  /**
   * `ended` are the groups whose writers have returned, `applied` those of them
   * that returned OK; `mem` is every insertion into a memtable.
   */
  datatype State = State(
    writers: seq<Writer>, head: nat, results: seq<bool>, phase: Phase,
    log: seq<Group>, synced: nat, ended: seq<Group>, applied: seq<Group>, mem: seq<(nat, Operation)>,
    lastSequence: nat, tmpBatch: seq<Operation>, bgError: bool)

  /** MemTableInserter's numbering. */
  function Numbered(first: nat, ops: seq<Operation>): (r: seq<(nat, Operation)>)
    ensures |r| == |ops|
  {
    seq(|ops|, i requires 0 <= i < |ops| => (first + i, ops[i]))
  }

  function Entries(groups: seq<Group>): seq<(nat, Operation)> {
    if groups == [] then []
    else Entries(groups[..|groups| - 1]) + Numbered(groups[|groups| - 1].first, groups[|groups| - 1].ops)
  }

  ghost predicate Init(s: State) {
    s == State([], 0, [], Idle, [], 0, [], [], [], s.lastSequence, [], false)
  }

  /** Write pushes itself onto the queue. */
  ghost predicate Enqueue(s: State, w: Writer, s': State) {
    s' == s.(writers := s.writers + [w])
  }

  /** Some background work fails. */
  ghost predicate BackgroundFails(s: State, s': State) {
    s' == s.(bgError := true)
  }

  /** MakeRoomForWrite fails, or the front writer has no batch: it leaves the queue alone. */
  ghost predicate LeaveAlone(s: State, ok: bool, s': State) {
    && s.phase.Idle? && s.head < |s.writers|
    && (ok ==> s.writers[s.head].batch.None?) && (s.bgError ==> !ok)
    && s' == s.(head := s.head + 1, results := s.results + [ok])
  }

  /** The front writer builds its group and numbers it after the last published sequence number. */
  ghost predicate Begin(bytes: Sizes, s: State, k: nat, s': State) {
    && s.phase.Idle? && !s.bgError && s.head < |s.writers| && s.writers[s.head].batch.Some?
    && var q := s.writers[s.head..];
       && IsGroup(bytes, q, k)
       && s' == s.(phase := Busy(Group(s.head, k, s.lastSequence + 1, OpsOf(q[..k])), Logging),
                   tmpBatch := if Follows(q, k) then OpsOf(q[..k]) else [])
  }

  /** AddRecord, with the mutex released. */
  ghost predicate Append(s: State, ok: bool, s': State) {
    && s.phase.Busy? && s.phase.stage.Logging? && s.phase.group.from < |s.writers|
    && s' == s.(log := if ok then s.log + [s.phase.group] else s.log,
                phase := s.phase.(stage := if !ok then Aborted(false)
                                           else if s.writers[s.phase.group.from].sync then Syncing else Inserting(0)))
  }

  ghost predicate Sync(s: State, ok: bool, s': State) {
    && s.phase.Busy? && s.phase.stage.Syncing?
    && s' == s.(synced := if ok then |s.log| else s.synced,
                phase := s.phase.(stage := if ok then Inserting(0) else Aborted(true)))
  }

  /** One MemTable::Add of InsertInto. */
  ghost predicate Insert(s: State, s': State) {
    && s.phase.Busy? && s.phase.stage.Inserting? && s.phase.stage.done < |s.phase.group.ops|
    && var g, i := s.phase.group, s.phase.stage.done;
       s' == s.(mem := s.mem + [(g.first + i, g.ops[i])], phase := s.phase.(stage := Inserting(i + 1)))
  }

  /** Back under the mutex: publish the sequence numbers, clear tmp_batch_, release every writer of the group. */
  function Released(s: State, g: Group, ok: bool): State {
    s.(head := s.head + g.count, results := s.results + seq(g.count, _ => ok), phase := Idle,
       ended := s.ended + [g], applied := if ok then s.applied + [g] else s.applied,
       lastSequence := s.lastSequence + |g.ops|, tmpBatch := [],
       bgError := s.bgError || (s.phase.Busy? && s.phase.stage == Aborted(true)))
  }

  ghost predicate Finish(s: State, s': State) {
    && s.phase.Busy? && (s.phase.stage.Aborted? || s.phase.stage == Inserting(|s.phase.group.ops|))
    && s' == Released(s, s.phase.group, !s.phase.stage.Aborted?)
  }

  ghost predicate Next(bytes: Sizes, s: State, s': State) {
    || (exists w :: Enqueue(s, w, s')) || BackgroundFails(s, s') || (exists ok :: LeaveAlone(s, ok, s'))
    || (exists k :: Begin(bytes, s, k, s')) || (exists ok :: Append(s, ok, s')) || (exists ok :: Sync(s, ok, s'))
    || Insert(s, s') || Finish(s, s')
  }

  ghost predicate Run(bytes: Sizes, states: seq<State>) {
    states != [] && Init(states[0]) && forall i :: 0 <= i < |states| - 1 ==> Next(bytes, states[i], states[i + 1])
  }

  // ----- the invariant -----

  /** A group serves consecutive writers: their batches joined, and no sync writer under a leader that is not. */
  ghost predicate GroupOk(writers: seq<Writer>, g: Group) {
    && 0 < g.count && g.from + g.count <= |writers| && writers[g.from].batch.Some?
    && g.ops == OpsOf(writers[g.from..g.from + g.count])
    && forall i :: g.from <= i < g.from + g.count && writers[i].sync ==> writers[g.from].sync
  }

  /** g lies before h in the queue and in sequence numbers. */
  predicate Precedes(g: Group, h: Group) {
    g.from + g.count <= h.from && g.first + |g.ops| <= h.first
  }

  predicate EndsBy(g: Group, writer: nat, sequence: nat) {
    g.from + g.count <= writer && g.first + |g.ops| <= sequence + 1
  }

  ghost predicate GroupsOk(writers: seq<Writer>, groups: seq<Group>) {
    && (forall g <- groups :: GroupOk(writers, g))
    && forall i, j :: 0 <= i < j < |groups| ==> Precedes(groups[i], groups[j])
  }

  /** How far the log reaches: the group under way counts once it is appended. */
  function Pending(s: State): Option<Group> {
    if s.phase.Busy? && !s.phase.stage.Logging? && s.phase.stage != Aborted(false) then Some(s.phase.group) else None
  }

  ghost predicate PhaseOk(s: State) {
    match s.phase
    case Idle => s.tmpBatch == []
    case Busy(g, stage) =>
      && GroupOk(s.writers, g) && g.from == s.head && g.first == s.lastSequence + 1
      && (stage.Inserting? ==> stage.done <= |g.ops|)
      && (stage.Syncing? ==> s.writers[g.from].sync)
      && (stage.Inserting? && s.writers[g.from].sync ==> s.synced == |s.log|)
  }

  /** Every logged group is finished, or is the one under way and the last in the log. */
  ghost predicate LogOk(s: State) {
    && GroupsOk(s.writers, s.log) && s.synced <= |s.log|
    && (Pending(s).Some? ==> s.log != [] && s.log[|s.log| - 1] == Pending(s).value)
    && forall i :: 0 <= i < |s.log| - (if Pending(s).Some? then 1 else 0) ==> EndsBy(s.log[i], s.head, s.lastSequence)
  }

  /** The log position of a group, synced if its leader asked for it. */
  ghost predicate Durable(s: State, g: Group) {
    g.from < |s.writers| && exists i :: 0 <= i < |s.log| && s.log[i] == g && (s.writers[g.from].sync ==> i < s.synced)
  }

  ghost predicate AppliedOk(s: State) {
    && GroupsOk(s.writers, s.applied)
    && forall g <- s.applied :: EndsBy(g, s.head, s.lastSequence) && Durable(s, g)
  }

  /** The memtables hold the applied groups and as much of the one under way as is inserted. */
  ghost predicate MemOk(s: State) {
    s.mem == Entries(s.applied) +
      if s.phase.Busy? && s.phase.stage.Inserting? && s.phase.stage.done <= |s.phase.group.ops|
      then Numbered(s.phase.group.first, s.phase.group.ops[..s.phase.stage.done]) else []
  }

  predicate Serves(g: Group, i: nat) {
    g.from <= i < g.from + g.count
  }

  /** Exactly the writers of applied groups, and those with nothing to write, get OK. */
  ghost predicate ResultsOk(s: State) {
    && |s.results| == s.head <= |s.writers|
    && (forall i: nat :: i < s.head && s.results[i] && s.writers[i].batch.Some? ==> exists g <- s.applied :: Serves(g, i))
    && (forall g <- s.applied, i: nat | Serves(g, i) && i < s.head :: s.results[i])
  }

  ghost predicate OneStatus(results: seq<bool>, g: Group) {
    forall i: nat, j: nat | Serves(g, i) && Serves(g, j) && i < |results| && j < |results| :: results[i] == results[j]
  }

  /** All writers of a group that has ended share one status, whether it was appended or not. */
  ghost predicate StatusShared(s: State) {
    && |s.results| == s.head
    && (forall g <- s.ended :: EndsBy(g, s.head, s.lastSequence) && OneStatus(s.results, g))
    && (forall i, j :: 0 <= i < j < |s.ended| ==> Precedes(s.ended[i], s.ended[j]))
    && (forall i :: 0 <= i < |s.log| - (if Pending(s).Some? then 1 else 0) ==> s.log[i] in s.ended)
    && forall g <- s.applied :: g in s.ended
  }

  ghost predicate Inv(s: State) {
    PhaseOk(s) && LogOk(s) && AppliedOk(s) && MemOk(s) && ResultsOk(s) && StatusShared(s)
  }

  // ----- every step keeps it -----

  lemma GroupsOkGrow(writers: seq<Writer>, w: Writer, groups: seq<Group>)
    requires GroupsOk(writers, groups)
    ensures GroupsOk(writers + [w], groups)
  {
    forall g | g in groups ensures GroupOk(writers + [w], g) {
      GroupOkGrow(writers, w, g);
    }
  }

  lemma GroupOkGrow(writers: seq<Writer>, w: Writer, g: Group)
    requires GroupOk(writers, g)
    ensures GroupOk(writers + [w], g)
  {
    assert (writers + [w])[g.from..g.from + g.count] == writers[g.from..g.from + g.count];
  }

  lemma EnqueueKeepsInv(s: State, w: Writer, s': State)
    requires Inv(s) && Enqueue(s, w, s')
    ensures Inv(s')
  {
    GroupsOkGrow(s.writers, w, s.log);
    GroupsOkGrow(s.writers, w, s.applied);
    if s.phase.Busy? {
      GroupOkGrow(s.writers, w, s.phase.group);
    }
    forall g | g in s.applied ensures Durable(s', g) {
      assert Durable(s, g);
    }
  }

  lemma LeaveAloneKeepsInv(s: State, ok: bool, s': State)
    requires Inv(s) && LeaveAlone(s, ok, s')
    ensures Inv(s')
  {
    forall g | g in s.log ensures EndsBy(g, s.head, s.lastSequence) {
      var k :| 0 <= k < |s.log| && s.log[k] == g;
    }
    forall g | g in s.applied ensures Durable(s', g) && EndsBy(g, s'.head, s'.lastSequence) {
      assert Durable(s, g);
    }
  }

  lemma NewGroupOk(bytes: Sizes, s: State, k: nat)
    requires s.head < |s.writers| && s.writers[s.head].batch.Some? && IsGroup(bytes, s.writers[s.head..], k)
    ensures GroupOk(s.writers, Group(s.head, k, s.lastSequence + 1, OpsOf(s.writers[s.head..][..k])))
  {
    var q := s.writers[s.head..];
    assert q[..k] == s.writers[s.head..s.head + k];
    forall i | s.head <= i < s.head + k && s.writers[i].sync ensures s.writers[s.head].sync {
      if i > s.head {
        assert !Refused(bytes, q, i - s.head);
        assert q[i - s.head] == s.writers[i];
      }
    }
  }

  lemma BeginKeepsInv(bytes: Sizes, s: State, k: nat, s': State)
    requires Inv(s) && Begin(bytes, s, k, s')
    ensures Inv(s')
  {
    NewGroupOk(bytes, s, k);
    forall g | g in s.applied ensures Durable(s', g) {
      assert Durable(s, g);
    }
  }

  lemma AppendKeepsLog(s: State, s': State)
    requires PhaseOk(s) && LogOk(s) && Append(s, true, s')
    ensures LogOk(s')
  {
    var g := s.phase.group;
    forall i | 0 <= i < |s.log| ensures Precedes(s.log[i], g) {
      assert EndsBy(s.log[i], s.head, s.lastSequence);
    }
  }

  lemma AppendKeepsInv(s: State, ok: bool, s': State)
    requires Inv(s) && Append(s, ok, s')
    ensures Inv(s')
  {
    if ok {
      AppendKeepsLog(s, s');
    }
    assert forall i: nat :: Serves(s.phase.group, i) ==> i >= s.head;
    forall g | g in s.applied ensures Durable(s', g) {
      assert Durable(s, g);
      var i :| 0 <= i < |s.log| && s.log[i] == g && (s.writers[g.from].sync ==> i < s.synced);
      assert s'.log[i] == g;
    }
    assert s.phase.group.ops[..0] == [];
  }

  lemma SyncKeepsInv(s: State, ok: bool, s': State)
    requires Inv(s) && Sync(s, ok, s')
    ensures Inv(s')
  {
    forall g | g in s.applied ensures Durable(s', g) {
      assert Durable(s, g);
    }
    assert s.phase.group.ops[..0] == [];
  }

  lemma NumberedSnoc(first: nat, ops: seq<Operation>, i: nat)
    requires i < |ops|
    ensures Numbered(first, ops[..i + 1]) == Numbered(first, ops[..i]) + [(first + i, ops[i])]
  {
  }

  lemma InsertKeepsInv(s: State, s': State)
    requires Inv(s) && Insert(s, s')
    ensures Inv(s')
  {
    NumberedSnoc(s.phase.group.first, s.phase.group.ops, s.phase.stage.done);
    forall g | g in s.applied ensures Durable(s', g) {
      assert Durable(s, g);
    }
  }

  lemma EntriesSnoc(groups: seq<Group>, g: Group)
    ensures Entries(groups + [g]) == Entries(groups) + Numbered(g.first, g.ops)
  {
    assert (groups + [g])[..|groups|] == groups;
  }

  lemma FinishKeepsApplied(s: State, s': State)
    requires PhaseOk(s) && LogOk(s) && AppliedOk(s) && Finish(s, s')
    ensures AppliedOk(s')
  {
    var g := s.phase.group;
    forall h | h in s.applied ensures Durable(s', h) && EndsBy(h, s'.head, s'.lastSequence) && Precedes(h, g) {
      assert Durable(s, h) && EndsBy(h, s.head, s.lastSequence);
    }
    if !s.phase.stage.Aborted? {
      assert s'.log[|s.log| - 1] == g;
      assert Durable(s', g);
      assert forall i :: 0 <= i < |s.applied| ==> s.applied[i] in s.applied;
    }
  }

  lemma FinishKeepsLog(s: State, s': State)
    requires PhaseOk(s) && LogOk(s) && Finish(s, s')
    ensures LogOk(s')
  {
  }

  lemma FinishKeepsMem(s: State, s': State)
    requires PhaseOk(s) && MemOk(s) && Finish(s, s')
    ensures MemOk(s')
  {
    var g := s.phase.group;
    if !s.phase.stage.Aborted? {
      assert g.ops[..|g.ops|] == g.ops;
      EntriesSnoc(s.applied, g);
    }
  }

  lemma FinishKeepsResults(s: State, s': State)
    requires PhaseOk(s) && AppliedOk(s) && ResultsOk(s) && Finish(s, s')
    ensures ResultsOk(s')
  {
    var g := s.phase.group;
    forall i: nat | i < s'.head && s'.results[i] && s'.writers[i].batch.Some? ensures exists h <- s'.applied :: Serves(h, i) {
      if i < s.head {
        var h :| h in s.applied && Serves(h, i);
        assert h in s'.applied;
      } else {
        assert g in s'.applied && Serves(g, i);
      }
    }
    forall h, i: nat | h in s'.applied && Serves(h, i) && i < s'.head ensures s'.results[i] {
      if h in s.applied {
        assert EndsBy(h, s.head, s.lastSequence);
      }
    }
  }

  lemma FinishSharesStatus(s: State, s': State)
    requires PhaseOk(s) && LogOk(s) && StatusShared(s) && Finish(s, s')
    ensures StatusShared(s')
  {
    var g := s.phase.group;
    forall h | h in s'.ended ensures EndsBy(h, s'.head, s'.lastSequence) && OneStatus(s'.results, h) {
      if h in s.ended {
        assert OneStatus(s.results, h);
      }
    }
    assert g in s'.ended;
    forall i | 0 <= i < |s.ended| ensures Precedes(s.ended[i], g) {
      assert s.ended[i] in s.ended;
    }
  }

  lemma FinishKeepsInv(s: State, s': State)
    requires Inv(s) && Finish(s, s')
    ensures Inv(s')
  {
    FinishSharesStatus(s, s');
    FinishKeepsApplied(s, s');
    FinishKeepsLog(s, s');
    FinishKeepsMem(s, s');
    FinishKeepsResults(s, s');
  }

  lemma NextKeepsInv(bytes: Sizes, s: State, s': State)
    requires Inv(s) && Next(bytes, s, s')
    ensures Inv(s')
  {
    if w :| Enqueue(s, w, s') {
      EnqueueKeepsInv(s, w, s');
    } else if ok :| LeaveAlone(s, ok, s') {
      LeaveAloneKeepsInv(s, ok, s');
    } else if k :| Begin(bytes, s, k, s') {
      BeginKeepsInv(bytes, s, k, s');
    } else if ok :| Append(s, ok, s') {
      AppendKeepsInv(s, ok, s');
    } else if ok :| Sync(s, ok, s') {
      SyncKeepsInv(s, ok, s');
    } else if Insert(s, s') {
      InsertKeepsInv(s, s');
    } else if Finish(s, s') {
      FinishKeepsInv(s, s');
    } else {
      BackgroundFailsKeepsInv(s, s');
    }
  }

  lemma BackgroundFailsKeepsInv(s: State, s': State)
    requires Inv(s) && BackgroundFails(s, s')
    ensures Inv(s')
  {
    forall g | g in s.applied ensures Durable(s', g) {
      assert Durable(s, g);
    }
  }

  lemma {:induction false} RunKeepsInv(bytes: Sizes, states: seq<State>, i: nat)
    requires Run(bytes, states) && i < |states|
    ensures Inv(states[i])
  {
    if i > 0 {
      RunKeepsInv(bytes, states, i - 1);
      NextKeepsInv(bytes, states[i - 1], states[i]);
    }
  }

  // ----- what every reachable state shows -----

  lemma NumberedAt(groups: seq<Group>, k: nat, j: nat)
    requires k < |groups| && j < |groups[k].ops|
    ensures |Entries(groups[..k])| + j < |Entries(groups)|
    ensures Entries(groups)[|Entries(groups[..k])| + j] == (groups[k].first + j, groups[k].ops[j])
  {
    EntriesPrefix(groups, k + 1);
    var front := groups[..k + 1];
    assert front[..k] == groups[..k];
  }

  lemma {:induction false} EntriesPrefix(groups: seq<Group>, k: nat)
    requires k <= |groups|
    ensures Entries(groups[..k]) <= Entries(groups)
    decreases |groups|
  {
    if k == |groups| {
      assert groups[..k] == groups;
    } else {
      var n := |groups| - 1;
      EntriesPrefix(groups[..n], k);
      assert groups[..n][..k] == groups[..k];
    }
  }

  /** Sequence numbers lie in first..=last and strictly increase. */
  ghost predicate Increasing(es: seq<(nat, Operation)>) {
    forall p, q :: 0 <= p < q < |es| ==> es[p].0 < es[q].0
  }

  ghost predicate AllUpTo(es: seq<(nat, Operation)>, last: nat) {
    forall e <- es :: e.0 <= last
  }

  lemma IncreasingAppend(a: seq<(nat, Operation)>, first: nat, ops: seq<Operation>, last: nat)
    requires Increasing(a) && AllUpTo(a, last) && last < first
    ensures Increasing(a + Numbered(first, ops)) && AllUpTo(a + Numbered(first, ops), first + |ops|)
    ensures ops != [] ==> AllUpTo(a + Numbered(first, ops), first + |ops| - 1)
  {
    assert forall i :: 0 <= i < |a| ==> a[i] in a;
  }

  lemma {:induction false} EntriesIncrease(groups: seq<Group>, w: nat, last: nat)
    requires forall g <- groups :: EndsBy(g, w, last) && g.first > 0
    requires forall i, j :: 0 <= i < j < |groups| ==> Precedes(groups[i], groups[j])
    ensures Increasing(Entries(groups)) && AllUpTo(Entries(groups), last)
    decreases |groups|
  {
    if groups != [] {
      var n := |groups| - 1;
      var g := groups[n];
      assert g in groups;
      forall h | h in groups[..n] ensures EndsBy(h, g.from, g.first - 1) {
        var i :| 0 <= i < n && groups[i] == h;
        assert Precedes(groups[i], groups[n]);
      }
      EntriesIncrease(groups[..n], g.from, g.first - 1);
      IncreasingAppend(Entries(groups[..n]), g.first, g.ops, g.first - 1);
      assert g.ops == [] ==> Numbered(g.first, g.ops) == [] && Entries(groups) == Entries(groups[..n]);
    }
  }

  /** Within its group a writer's operations stay together, at this offset. */
  function Offset(writers: seq<Writer>, g: Group, i: nat): nat
    requires Serves(g, i) && g.from + g.count <= |writers|
  {
    |OpsOf(writers[g.from..i])|
  }

  lemma {:induction false} OpsOfSlice(q: seq<Writer>, i: nat, j: nat)
    requires i < |q| && q[i].batch.Some? && j < |q[i].batch.value|
    ensures |OpsOf(q[..i])| + j < |OpsOf(q)| && OpsOf(q)[|OpsOf(q[..i])| + j] == q[i].batch.value[j]
    decreases |q|
  {
    var n := |q| - 1;
    if i < n {
      OpsOfSlice(q[..n], i, j);
      assert q[..n][..i] == q[..i];
    }
  }

  lemma ServedOps(writers: seq<Writer>, g: Group, i: nat, j: nat)
    requires GroupOk(writers, g) && Serves(g, i) && writers[i].batch.Some? && j < |writers[i].batch.value|
    ensures Offset(writers, g, i) + j < |g.ops| && g.ops[Offset(writers, g, i) + j] == writers[i].batch.value[j]
  {
    var q := writers[g.from..g.from + g.count];
    assert q[..i - g.from] == writers[g.from..i];
    OpsOfSlice(q, i - g.from, j);
  }

  lemma MemIncreases(s: State)
    requires Inv(s) && forall g <- s.applied :: g.first > 0
    ensures Increasing(s.mem) && Increasing(Entries(s.applied)) && AllUpTo(Entries(s.applied), s.lastSequence)
    ensures forall p :: |Entries(s.applied)| <= p < |s.mem| ==> s.mem[p].0 > s.lastSequence
  {
    EntriesIncrease(s.applied, s.head, s.lastSequence);
    if s.phase.Busy? && s.phase.stage.Inserting? {
      var g := s.phase.group;
      IncreasingAppend(Entries(s.applied), g.first, g.ops[..s.phase.stage.done], s.lastSequence);
    }
  }

  ghost predicate NumberedFromOne(s: State) {
    forall g <- s.applied :: g.first > 0
  }

  lemma BegunFromOne(s: State)
    requires Inv(s) && s.phase.Busy?
    ensures s.phase.group.first > 0
  {
  }

  lemma AppliedNext(bytes: Sizes, s: State, s': State)
    requires Next(bytes, s, s') && NumberedFromOne(s) && (s.phase.Busy? ==> s.phase.group.first > 0)
    ensures NumberedFromOne(s')
  {
    if s'.applied != s.applied {
      assert Finish(s, s');
    }
  }

  lemma RunStep(bytes: Sizes, states: seq<State>, i: nat)
    requires Run(bytes, states) && i + 1 < |states|
    ensures Next(bytes, states[i], states[i + 1]) && (states[i].phase.Busy? ==> states[i].phase.group.first > 0)
  {
    RunKeepsInv(bytes, states, i);
    if states[i].phase.Busy? {
      BegunFromOne(states[i]);
    }
  }

  lemma {:induction false} GroupsNumberedFromOne(bytes: Sizes, states: seq<State>, i: nat)
    requires Run(bytes, states) && i < |states|
    ensures NumberedFromOne(states[i])
  {
    if i > 0 {
      GroupsNumberedFromOne(bytes, states, i - 1);
      RunStep(bytes, states, i - 1);
      AppliedNext(bytes, states[i - 1], states[i]);
    }
  }

  /** Whole groups only: what a reader at the last published sequence number sees. */
  ghost predicate SeesWholeGroups(s: State) {
    forall p :: 0 <= p < |s.mem| ==>
      (s.mem[p].0 <= s.lastSequence <==> p < |Entries(s.applied)|)
  }

  /**
   * Atomic visibility: in every reachable state, between any two insertions, a
   * reader at LastSequence sees exactly the finished groups and nothing of the
   * group being inserted; sequence numbers in the memtables strictly increase.
   */
  lemma ReadersSeeWholeGroups(bytes: Sizes, states: seq<State>, n: nat)
    requires Run(bytes, states) && n < |states|
    ensures var s := states[n];
      Entries(s.applied) <= s.mem && Increasing(s.mem) && SeesWholeGroups(s)
  {
    RunKeepsInv(bytes, states, n);
    GroupsNumberedFromOne(bytes, states, n);
    var s := states[n];
    MemIncreases(s);
    forall p | 0 <= p < |s.mem| && p < |Entries(s.applied)| ensures s.mem[p].0 <= s.lastSequence {
      assert s.mem[p] == Entries(s.applied)[p];
      assert Entries(s.applied)[p] in Entries(s.applied);
    }
  }

  lemma OneGroupServes(s: State, i: nat, g: Group, h: Group)
    requires Inv(s) && g in s.applied && h in s.applied && Serves(g, i) && Serves(h, i)
    ensures g == h
  {
    var a :| 0 <= a < |s.applied| && s.applied[a] == g;
    var b :| 0 <= b < |s.applied| && s.applied[b] == h;
    assert a < b ==> Precedes(g, h);
    assert b < a ==> Precedes(h, g);
  }

  /** Operation j of a batch is in the memtable under number base + j, and no other entry has that number. */
  ghost predicate InsertedOnce(mem: seq<(nat, Operation)>, batch: seq<Operation>, base: nat, j: nat)
    requires j < |batch|
  {
    exists p :: 0 <= p < |mem| && mem[p] == (base + j, batch[j]) &&
      forall q :: 0 <= q < |mem| && mem[q].0 == base + j ==> q == p
  }

  lemma OnceIfIncreasing(mem: seq<(nat, Operation)>, batch: seq<Operation>, base: nat, j: nat, p: nat)
    requires Increasing(mem) && j < |batch| && p < |mem| && mem[p] == (base + j, batch[j])
    ensures InsertedOnce(mem, batch, base, j)
  {
    assert mem[p] == (base + j, batch[j]) && forall q :: 0 <= q < |mem| && mem[q].0 == base + j ==> q == p;
  }

  lemma GroupIsInserted(groups: seq<Group>, mem: seq<(nat, Operation)>, g: Group, m: nat) returns (p: nat)
    requires g in groups && Entries(groups) <= mem && m < |g.ops|
    ensures p < |mem| && mem[p] == (g.first + m, g.ops[m])
  {
    var k :| 0 <= k < |groups| && groups[k] == g;
    NumberedAt(groups, k, m);
    p := |Entries(groups[..k])| + m;
    assert mem[p] == Entries(groups)[p];
  }

  lemma ServedIsInserted(s: State, g: Group, i: nat, j: nat)
    requires GroupOk(s.writers, g) && Increasing(s.mem) && Entries(s.applied) <= s.mem && g in s.applied && Serves(g, i)
    requires s.writers[i].batch.Some? && j < |s.writers[i].batch.value|
    ensures InsertedOnce(s.mem, s.writers[i].batch.value, g.first + Offset(s.writers, g, i), j)
  {
    var m := Offset(s.writers, g, i) + j;
    ServedOps(s.writers, g, i, j);
    var p := GroupIsInserted(s.applied, s.mem, g, m);
    OnceIfIncreasing(s.mem, s.writers[i].batch.value, g.first + Offset(s.writers, g, i), j, p);
  }

  ghost predicate AllInserted(mem: seq<(nat, Operation)>, batch: seq<Operation>, base: nat) {
    forall j: nat :: j < |batch| ==> InsertedOnce(mem, batch, base, j)
  }

  lemma BatchIsInserted(s: State, g: Group, i: nat, batch: seq<Operation>, base: nat)
    requires GroupOk(s.writers, g) && Increasing(s.mem) && Entries(s.applied) <= s.mem && g in s.applied && Serves(g, i)
    requires s.writers[i].batch == Some(batch) && base == g.first + Offset(s.writers, g, i)
    ensures AllInserted(s.mem, batch, base)
  {
    forall j: nat | j < |batch| ensures InsertedOnce(s.mem, batch, base, j) {
      ServedIsInserted(s, g, i, j);
    }
  }

  /** No other position of the log serves the writer. */
  ghost predicate OnlyThere(log: seq<Group>, i: nat, l: nat) {
    forall m :: 0 <= m < |log| && Serves(log[m], i) ==> m == l
  }

  lemma LoggedOnce(writers: seq<Writer>, log: seq<Group>, i: nat, l: nat)
    requires GroupsOk(writers, log) && l < |log| && Serves(log[l], i)
    ensures OnlyThere(log, i, l)
  {
    forall m | 0 <= m < |log| && Serves(log[m], i) ensures m == l {
      assert m < l ==> Precedes(log[m], log[l]);
      assert l < m ==> Precedes(log[l], log[m]);
    }
  }

  /** Everything a write that returned OK is promised, with g the group that carried it. */
  ghost predicate CommittedOnce(s: State, i: nat, g: Group) {
    && g in s.applied && Serves(g, i) && GroupOk(s.writers, g) && s.writers[i].batch.Some?
    && (forall h <- s.applied :: Serves(h, i) ==> h == g)
    && (exists l :: 0 <= l < |s.log| && s.log[l] == g && (s.writers[i].sync ==> l < s.synced) && OnlyThere(s.log, i, l))
    && AllInserted(s.mem, s.writers[i].batch.value, g.first + Offset(s.writers, g, i))
  }

  lemma ServedIsCommitted(s: State, i: nat, g: Group)
    requires Inv(s) && Increasing(s.mem) && Entries(s.applied) <= s.mem
    requires g in s.applied && Serves(g, i) && i < |s.writers| && s.writers[i].batch.Some?
    ensures CommittedOnce(s, i, g)
  {
    assert GroupOk(s.writers, g) && Durable(s, g);
    forall h | h in s.applied && Serves(h, i) ensures h == g {
      OneGroupServes(s, i, g, h);
    }
    var l :| 0 <= l < |s.log| && s.log[l] == g && (s.writers[g.from].sync ==> l < s.synced);
    LoggedOnce(s.writers, s.log, i, l);
    BatchIsInserted(s, g, i, s.writers[i].batch.value, g.first + Offset(s.writers, g, i));
  }

  /**
   * A write that returned OK was committed exactly once: its group is in the
   * log, synced if the writer asked for it; its operations are in the memtable
   * once each, one after the other; no other group and no other place in the log carries it.
   */
  lemma OkWriteIsCommittedOnce(bytes: Sizes, states: seq<State>, n: nat, i: nat)
    requires Run(bytes, states) && n < |states|
    requires i < |states[n].results| && states[n].results[i]
    requires i < |states[n].writers| && states[n].writers[i].batch.Some?
    ensures exists g :: CommittedOnce(states[n], i, g)
  {
    RunKeepsInv(bytes, states, n);
    ReadersSeeWholeGroups(bytes, states, n);
    var s := states[n];
    var g :| g in s.applied && Serves(g, i);
    ServedIsCommitted(s, i, g);
  }

  /** Every writer of a group that has ended, appended or not, returned the same status. */
  lemma GroupSharesStatus(bytes: Sizes, states: seq<State>, n: nat, g: Group, i: nat, j: nat)
    requires Run(bytes, states) && n < |states| && g in states[n].ended && Serves(g, i) && Serves(g, j)
    ensures i < |states[n].results| && j < |states[n].results| && states[n].results[i] == states[n].results[j]
  {
    RunKeepsInv(bytes, states, n);
    assert OneStatus(states[n].results, g);
  }

  /** No sequence number is used twice, not even by groups that failed: ended groups have disjoint increasing blocks. */
  lemma EndedGroupsAreNumberedApart(bytes: Sizes, states: seq<State>, n: nat, i: nat, j: nat)
    requires Run(bytes, states) && n < |states| && i < j < |states[n].ended|
    ensures var g, h := states[n].ended[i], states[n].ended[j];
      g.from + g.count <= h.from && g.first + |g.ops| <= h.first && h.first + |h.ops| <= states[n].lastSequence + 1
  {
    RunKeepsInv(bytes, states, n);
    assert states[n].ended[j] in states[n].ended;
    assert Precedes(states[n].ended[i], states[n].ended[j]);
  }

  // ----- after a failed sync -----

  /** A background error, or a group whose sync has just failed. */
  ghost predicate Broken(s: State) {
    s.bgError && s.phase.Idle?
  }

  /** From a state with the error set and no group under way, results only grow by failures. */
  ghost predicate OnlyFailures(s: State, s': State) {
    && |s.results| <= |s'.results| && s'.results[..|s.results|] == s.results
    && (forall i :: |s.results| <= i < |s'.results| ==> !s'.results[i])
    && s'.log == s.log && s'.applied == s.applied && s'.mem == s.mem
  }

  lemma BrokenStays(bytes: Sizes, s: State, s': State)
    requires Broken(s) && Next(bytes, s, s')
    ensures Broken(s') && OnlyFailures(s, s')
  {
  }

  lemma {:induction false} BrokenRun(bytes: Sizes, states: seq<State>, m: nat, n: nat)
    requires Run(bytes, states) && m <= n < |states| && Broken(states[m])
    ensures Broken(states[n]) && OnlyFailures(states[m], states[n])
    decreases n - m
  {
    if m < n {
      BrokenRun(bytes, states, m, n - 1);
      BrokenStays(bytes, states[n - 1], states[n]);
    }
  }

  /**
   * Once a sync has failed the log's tail is uncertain: from then on no write
   * returns OK, and nothing more is logged or inserted.
   */
  lemma NoOkAfterSyncError(bytes: Sizes, states: seq<State>, m: nat, n: nat, i: nat)
    requires Run(bytes, states) && m < n < |states| && Finish(states[m], states[m + 1])
    requires states[m].phase.stage == Aborted(true)
    requires |states[m].results| <= i < |states[n].results|
    ensures !states[n].results[i] && states[n].log == states[m].log && states[n].mem == states[m].mem
  {
    BrokenRun(bytes, states, m + 1, n);
    if i < |states[m + 1].results| {
      assert states[n].results[i] == states[m + 1].results[i];
    }
  }

  /** A write that did not return OK, or has not returned, is in no finished group. */
  lemma OnlyOkWritesAreApplied(bytes: Sizes, states: seq<State>, n: nat, i: nat, g: Group)
    requires Run(bytes, states) && n < |states| && g in states[n].applied && Serves(g, i)
    ensures i < |states[n].results| && states[n].results[i]
  {
    RunKeepsInv(bytes, states, n);
    assert EndsBy(g, states[n].head, states[n].lastSequence);
  }

  /** Groups follow the queue: an earlier writer's group is the same or has smaller sequence numbers. */
  lemma GroupsFollowQueue(bytes: Sizes, states: seq<State>, n: nat, g: Group, h: Group, i: nat, j: nat)
    requires Run(bytes, states) && n < |states|
    requires g in states[n].log && h in states[n].log && Serves(g, i) && Serves(h, j) && i < j
    ensures g == h || Precedes(g, h)
  {
    RunKeepsInv(bytes, states, n);
    var s := states[n];
    var a :| 0 <= a < |s.log| && s.log[a] == g;
    var b :| 0 <= b < |s.log| && s.log[b] == h;
    assert b < a ==> Precedes(h, g);
  }

  // ----- every queued write returns -----

  lemma {:induction false} SomeGroup(bytes: Sizes, q: seq<Writer>, from: nat) returns (k: nat)
    requires 1 <= from <= |q| && forall j: nat :: 0 < j < from ==> !Refused(bytes, q, j)
    ensures IsGroup(bytes, q, k)
    decreases |q| - from
  {
    if from == |q| || Refused(bytes, q, from) {
      k := from;
    } else {
      k := SomeGroup(bytes, q, from + 1);
    }
  }

  /** How far the writer at the front has come. */
  function StageLeft(s: State): nat {
    if s.phase.Idle? then 4
    else if s.phase.stage.Logging? then 3
    else if s.phase.stage.Syncing? then 2
    else if s.phase.stage.Inserting? then 1
    else 0
  }

  function InsertsLeft(s: State): nat {
    if s.phase.Busy? && s.phase.stage.Inserting? && s.phase.stage.done <= |s.phase.group.ops| then |s.phase.group.ops| - s.phase.stage.done
    else 0
  }

  /** Nothing has failed. */
  predicate Healthy(s: State) {
    !s.bgError && !(s.phase.Busy? && s.phase.stage.Aborted?)
  }

  /** A step of the writers already queued, in which no failure begins. */
  ghost predicate Serving(bytes: Sizes, s: State, s': State) {
    && Next(bytes, s, s') && s'.writers == s.writers && s.results <= s'.results
    && (Healthy(s) ==> Healthy(s') && forall i :: |s.results| <= i < |s'.results| ==> s'.results[i])
  }

  predicate Nearer(s: State, s': State) {
    s.head <= s'.head <= |s.writers| &&
    (s.head == s'.head ==> StageLeft(s') < StageLeft(s) || (StageLeft(s') == StageLeft(s) && InsertsLeft(s') < InsertsLeft(s)))
  }

  /** While a writer waits, one of them can take a step. */
  lemma SomeoneSteps(bytes: Sizes, s: State) returns (s': State)
    requires Inv(s) && s.head < |s.writers|
    ensures Serving(bytes, s, s') && Nearer(s, s')
  {
    if s.phase.Idle? {
      if s.bgError || s.writers[s.head].batch.None? {
        s' := s.(head := s.head + 1, results := s.results + [!s.bgError]);
        assert LeaveAlone(s, !s.bgError, s');
      } else {
        var q := s.writers[s.head..];
        var k := SomeGroup(bytes, q, 1);
        s' := s.(phase := Busy(Group(s.head, k, s.lastSequence + 1, OpsOf(q[..k])), Logging),
                 tmpBatch := if Follows(q, k) then OpsOf(q[..k]) else []);
        assert Begin(bytes, s, k, s');
      }
    } else {
      s' := GroupSteps(bytes, s);
    }
  }

  lemma GroupSteps(bytes: Sizes, s: State) returns (s': State)
    requires Inv(s) && s.phase.Busy?
    ensures Serving(bytes, s, s') && Nearer(s, s')
  {
    var g := s.phase.group;
    match s.phase.stage
    case Logging =>
      s' := s.(log := s.log + [g], phase := Busy(g, if s.writers[g.from].sync then Syncing else Inserting(0)));
      assert Append(s, true, s');
    case Syncing =>
      s' := s.(synced := |s.log|, phase := Busy(g, Inserting(0)));
      assert Sync(s, true, s');
    case Inserting(done) =>
      if done < |g.ops| {
        s' := s.(mem := s.mem + [(g.first + done, g.ops[done])], phase := Busy(g, Inserting(done + 1)));
        assert Insert(s, s');
      } else {
        s' := Released(s, g, true);
        assert Finish(s, s');
      }
    case Aborted(_) =>
      s' := Released(s, g, false);
      assert Finish(s, s');
  }

  /** The states from s on, in which only the writers already queued take steps. */
  ghost predicate Continues(bytes: Sizes, s: State, states: seq<State>) {
    states != [] && states[0] == s && forall i :: 0 <= i < |states| - 1 ==> Serving(bytes, states[i], states[i + 1])
  }

  lemma ContinuesFrom(bytes: Sizes, s: State, next: State, rest: seq<State>)
    requires Serving(bytes, s, next) && Continues(bytes, next, rest)
    ensures Continues(bytes, s, [s] + rest)
  {
    var states := [s] + rest;
    forall i | 0 <= i < |states| - 1 ensures Serving(bytes, states[i], states[i + 1]) {
      if i > 0 {
        assert states[i] == rest[i - 1] && states[i + 1] == rest[i];
      }
    }
  }

  /** Every queued writer has returned, with OK if nothing had failed. */
  ghost predicate AllReturned(s: State, last: State) {
    && last.writers == s.writers && |last.results| == |s.writers| && s.results <= last.results
    && (Healthy(s) ==> forall i :: |s.results| <= i < |s.writers| ==> last.results[i])
  }

  lemma ReturnsFrom(bytes: Sizes, s: State, next: State, last: State)
    requires Serving(bytes, s, next) && AllReturned(next, last)
    ensures AllReturned(s, last)
  {
    forall i | Healthy(s) && |s.results| <= i < |s.writers| ensures last.results[i] {
      if i < |next.results| {
        assert last.results[i] == next.results[i];
      }
    }
  }

  /**
   * No writer waits for ever: the queued writers can all return without another
   * arriving, and if nothing has failed by then they all return OK.
   */
  lemma {:induction false} QueuedWritersReturn(bytes: Sizes, s: State) returns (states: seq<State>)
    requires Inv(s)
    ensures Continues(bytes, s, states) && AllReturned(s, states[|states| - 1])
    decreases |s.writers| - s.head, StageLeft(s), InsertsLeft(s)
  {
    if s.head == |s.writers| {
      return [s];
    }
    var next := SomeoneSteps(bytes, s);
    NextKeepsInv(bytes, s, next);
    var rest := QueuedWritersReturn(bytes, next);
    ContinuesFrom(bytes, s, next, rest);
    ReturnsFrom(bytes, s, next, rest[|rest| - 1]);
    states := [s] + rest;
  }

  lemma EveryWriteCanReturn(bytes: Sizes, states: seq<State>, n: nat) returns (more: seq<State>)
    requires Run(bytes, states) && n < |states|
    ensures Continues(bytes, states[n], more) && AllReturned(states[n], more[|more| - 1])
  {
    RunKeepsInv(bytes, states, n);
    more := QueuedWritersReturn(bytes, states[n]);
  }
}
