/**
 The background thread on a whole database: what CompactMemTable and
 BackgroundCompaction install is a step of the database machine, from every
 sound state and whatever file is picked (db_impl.cc).
 */
module BackgroundSteps {
  import opened InternalKeys
  import opened Versions
  import opened InputSelection
  import opened TreeSteps
  import opened Compactions
  import opened CompactionSteps
  import opened Database
  import opened DatabaseRuns
  import Background

  lemma SoundFiles(s: State)
    requires Sound(s)
    ensures SortedTree(s.disk, s.version) && Shaped(s.version)
    ensures forall n :: n in s.disk ==> n < s.nextFile
  {
    TreeIsShaped(s.disk, s.version);
  }

  /** CompactMemTable: write the immutable memtable to a table if it holds anything, and let go of its log. */
  method CompactMemTable(s: State, maxFileSize: nat, size: nat) returns (s': State, f: FileMeta, level: nat)
    requires Sound(s) && s.imm.Some? && forall l :: 0 <= l < NUM_LEVELS ==> Bounded(s.version[l])
    ensures Next(s, Flush(f, level), s') && level <= MAX_MEM_COMPACT_LEVEL
  {
    SoundFiles(s);
    var disk', v' := s.disk, s.version;
    f, level := FileMeta(s.nextFile, 0, InternalKey(0.0, 0, Value), InternalKey(0.0, 0, Value)), 0;
    if s.imm.value != [] {
      disk', v', f, level := Background.FlushMemtable(s.disk, s.version, s.imm.value, s.nextFile, maxFileSize, size);
    }
    s' := s.(disk := disk', version := v', imm := None, logNumber := s.logfile,
             savedSequence := s.lastSequence, nextFile := s.nextFile + 1, savedNext := s.nextFile + 1,
             flushed := s.flushed + Logged(s, s.immLog));
  }

  /** A trivial move installed. */
  method MoveFile(s: State, c: CompactionInputs) returns (s': State)
    requires Sound(s) && Chosen(s.version, c) && |c.inputs0| == 1 && c.inputs1 == []
    ensures Next(s, Move(c), s')
  {
    SoundFiles(s);
    var v' := Background.MoveDown(s.disk, s.version, c);
    s' := s.(version := v', savedSequence := s.lastSequence, savedNext := s.nextFile);
  }

  /** A merging compaction installed. */
  method CompactFiles(s: State, c: CompactionInputs, oldest: nat, stop: nat -> bool, full: nat -> bool, size: nat)
    returns (s': State, chunks: seq<seq<Entry>>, outputs: seq<FileMeta>)
    requires Sound(s) && Chosen(s.version, c) && IsOldest(s, oldest)
    ensures Next(s, Compact(c, oldest, chunks, outputs), s')
  {
    SoundFiles(s);
    var disk', v';
    disk', v', chunks, outputs := Background.MergeDown(s.disk, s.version, c, oldest, s.nextFile, stop, full, size);
    s' := s.(disk := disk', version := v', savedSequence := s.lastSequence,
             nextFile := s.nextFile + |chunks|, savedNext := s.nextFile + |chunks|,
             horizon := if oldest > s.horizon then oldest else s.horizon);
  }

  /** One file, nothing on the next level, and not too much below that. */
  predicate TrivialMove(c: CompactionInputs, maxFileSize: nat) {
    |c.inputs0| == 1 && c.inputs1 == [] && TotalFileSize(c.grandparents) <= 10 * maxFileSize
  }

  /**
   BackgroundCompaction, when no memtable waits: a manual compaction or the one
   PickCompaction chooses, moved or merged. Every outcome is a step.
   */
  method BackgroundCompaction(s: State, c: CompactionInputs, manual: bool, oldest: nat, maxFileSize: nat,
                              stop: nat -> bool, full: nat -> bool, size: nat)
    returns (s': State, step: Step)
    requires Sound(s) && Chosen(s.version, c) && IsOldest(s, oldest)
    ensures Next(s, step, s') && Sound(s') && Commits(s') == Commits(s)
    ensures if !manual && TrivialMove(c, maxFileSize)
            then step == Move(c)
            else step.Compact? && step.inputs == c && step.oldest == oldest
  {
    if !manual && |c.inputs0| == 1 && c.inputs1 == [] && TotalFileSize(c.grandparents) <= 10 * maxFileSize {
      s' := MoveFile(s, c);
      step := Move(c);
      MoveKeepsSound(s, c, s');
    } else {
      var chunks, outputs;
      s', chunks, outputs := CompactFiles(s, c, oldest, stop, full, size);
      step := Compact(c, oldest, chunks, outputs);
      CompactKeepsSound(s, c, oldest, chunks, outputs, s');
    }
  }

  /** The inputs of a compaction or a move. */
  function InputsOf(step: Option<Step>): Option<CompactionInputs> {
    if step.Some? && (step.value.Move? || step.value.Compact?) then Some(step.value.inputs) else None
  }

  /** BackgroundCompaction without a memtable to flush: the compaction most in need, if there is one. */
  method AutomaticCompaction(s: State, pointers: seq<Option<InternalKey>>, seek: Option<(nat, FileMeta)>, oldest: nat, maxFileSize: nat,
                             stop: nat -> bool, full: nat -> bool, size: nat)
    returns (s': State, step: Option<Step>, pointers': seq<Option<InternalKey>>)
    requires Sound(s) && IsOldest(s, oldest) && |pointers| == NUM_LEVELS
    requires seek.Some? ==> seek.value.0 + 1 < NUM_LEVELS && seek.value.1 in s.version[seek.value.0]
    ensures Picked(s.version, pointers, seek, InputsOf(step), pointers') && |pointers'| == NUM_LEVELS
    ensures if step.None? then s' == s
            else InputsOf(step).Some? && Next(s, step.value, s') && (step.value.Move? <==> TrivialMove(InputsOf(step).value, maxFileSize))
    ensures Sound(s') && Commits(s') == Commits(s)
  {
    SoundFiles(s);
    var c;
    c, pointers' := PickCompaction(s.version, pointers, seek, maxFileSize);
    if c.None? {
      return s, None, pointers';
    }
    var done;
    s', done := BackgroundCompaction(s, c.value, false, oldest, maxFileSize, stop, full, size);
    step := Some(done);
    assert InputsOf(step) == c;
  }

  /** One turn of the background thread: the immutable memtable first, then the compaction most in need. */
  method BackgroundTurn(s: State, pointers: seq<Option<InternalKey>>, seek: Option<(nat, FileMeta)>, oldest: nat, maxFileSize: nat,
                        stop: nat -> bool, full: nat -> bool, size: nat)
    returns (s': State, step: Option<Step>, pointers': seq<Option<InternalKey>>)
    requires Sound(s) && IsOldest(s, oldest) && |pointers| == NUM_LEVELS
    requires seek.Some? ==> seek.value.0 + 1 < NUM_LEVELS && seek.value.1 in s.version[seek.value.0]
    requires forall l :: 0 <= l < NUM_LEVELS ==> Bounded(s.version[l])
    ensures |pointers'| == NUM_LEVELS && (step.None? ==> s' == s && s.imm.None?)
    ensures step.Some? ==> Next(s, step.value, s') && (s.imm.Some? <==> step.value.Flush?)
    ensures s.imm.None? ==> Picked(s.version, pointers, seek, InputsOf(step), pointers')
    ensures Sound(s') && Commits(s') == Commits(s)
  {
    if s.imm.Some? {
      var f, level;
      pointers' := pointers;
      s', f, level := CompactMemTable(s, maxFileSize, size);
      step := Some(Flush(f, level));
      FlushKeepsSound(s, f, level, s');
    } else {
      s', step, pointers' := AutomaticCompaction(s, pointers, seek, oldest, maxFileSize, stop, full, size);
    }
  }
}
