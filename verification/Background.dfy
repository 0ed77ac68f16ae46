/**
 The background thread's work as code: pick inputs, merge and drop, write the
 tables, build the edit and install it. What each
 installs is stated on the tree (db_impl.cc, version_set.cc).
 */
module Background {
  import opened InternalKeys
  import opened Versions
  import opened InputSelection
  import opened VersionBuilder
  import opened TreeSteps
  import opened Compactions
  import opened CompactionSteps
  import Database

  /** LogAndApply's in-memory half: one builder, one edit. */
  method Install(v: Version, edit: VersionEdit) returns (v': Version)
    requires LevelsExist(edit)
    requires forall l :: 0 <= l < NUM_LEVELS ==> SortedFiles(v[l])
    requires forall l, f, g :: 0 <= l < NUM_LEVELS && f in v[l] && g in AddedAt(edit, l) ==> f.number != g.number
    ensures forall l :: 0 <= l < NUM_LEVELS ==>
      SortedFiles(v'[l]) && Elements(v'[l]) == Saved(Elements(v[l]), ApplyLevel(Fresh(), edit, l))
  {
    var builder := new Builder(v);
    builder.Apply(edit);
    forall l: nat | l < NUM_LEVELS ensures NoneEquivalent(v[l], builder.added[l]) {
      assert builder.State(l) == ApplyLevel(Fresh(), edit, l);
      AddedOnly(edit, l, builder.added[l]);
    }
    v' := builder.SaveTo();
  }

  lemma AddedOnly(edit: VersionEdit, level: nat, added: seq<FileMeta>)
    requires Elements(added) == ApplyLevel(Fresh(), edit, level).added
    ensures forall g :: g in added ==> g in AddedAt(edit, level)
  {
    ApplyForm(Fresh(), edit, level);
    NewIsAdded(edit, level);
    assert forall g :: g in added ==> g in Elements(added);
  }

  function NumbersAt(level: nat, files: seq<FileMeta>): set<(nat, nat)> {
    set f | f in files :: (level, f.number)
  }

  function PlacedAt(level: nat, files: seq<FileMeta>): (r: seq<(nat, FileMeta)>)
    ensures |r| == |files| && forall i :: 0 <= i < |r| ==> r[i] == (level, files[i])
  {
    seq(|files|, i requires 0 <= i < |files| => (level, files[i]))
  }

  /** AddInputDeletions, then the outputs on the next level. */
  function CompactionEdit(c: CompactionInputs, outputs: seq<FileMeta>): VersionEdit {
    Edit(NumbersAt(c.level, c.inputs0) + NumbersAt(c.level + 1, c.inputs1), PlacedAt(c.level + 1, outputs))
  }

  lemma EditAt(c: CompactionInputs, outputs: seq<FileMeta>, l: nat)
    ensures AddedAt(CompactionEdit(c, outputs), l) == if l == c.level + 1 then Elements(outputs) else {}
    ensures DeletedAt(CompactionEdit(c, outputs), l) ==
            (if l == c.level then Numbers(Elements(c.inputs0)) else if l == c.level + 1 then Numbers(Elements(c.inputs1)) else {})
  {
    var edit := CompactionEdit(c, outputs);
    if l == c.level + 1 {
      forall o | o in outputs ensures o in AddedAt(edit, l) {
        var i :| 0 <= i < |outputs| && outputs[i] == o;
        assert edit.added[i] == (l, o) && (l, o) in edit.added;
      }
    }
    forall n | n in DeletedAt(edit, l)
      ensures (l == c.level && n in Numbers(Elements(c.inputs0))) || (l == c.level + 1 && n in Numbers(Elements(c.inputs1)))
    {
      assert (l, n) in edit.deleted;
    }
    forall f | f in c.inputs0 ensures l == c.level ==> f.number in DeletedAt(edit, l) {
      assert (c.level, f.number) in edit.deleted;
    }
    forall f | f in c.inputs1 ensures l == c.level + 1 ==> f.number in DeletedAt(edit, l) {
      assert (c.level + 1, f.number) in edit.deleted;
    }
  }

  /** An edit whose additions have different numbers adds them all. */
  lemma UniqueApply(edit: VersionEdit, level: nat)
    requires UniqueNumbers(AddedAt(edit, level))
    ensures ApplyLevel(Fresh(), edit, level) ==
            LevelState(DeletedAt(edit, level) - Numbers(AddedAt(edit, level)), AddedAt(edit, level))
  {
    ApplyForm(Fresh(), edit, level);
    assert NoneTwice(AddedAt(edit, level));
    NewIsAdded(edit, level);
    assert Unshadowed({}, AddedAt(edit, level)) == AddedAt(edit, level);
    assert {} + DeletedAt(edit, level) == DeletedAt(edit, level);
  }

  /** Deleting by number removes exactly the inputs; everything else is left. */
  lemma SavedIsReplaced(v: Version, c: CompactionInputs, outputs: seq<FileMeta>, m: nat, h: FileMeta)
    requires Numbered(v) && Chosen(v, c) && m < NUM_LEVELS && UniqueNumbers(Elements(outputs))
    requires forall o, f :: o in outputs && f in v[c.level + 1] ==> o.number != f.number
    ensures h in Saved(Elements(v[m]), ApplyLevel(Fresh(), CompactionEdit(c, outputs), m))
            <==> Left(v, c, m, h) || (m == c.level + 1 && h in outputs)
  {
    EditAt(c, outputs, m);
    UniqueApply(CompactionEdit(c, outputs), m);
    if h in v[m] && (m == c.level || m == c.level + 1) {
      DeletedByNumber(v, m, if m == c.level then c.inputs0 else c.inputs1, h);
    }
    assert h in outputs ==> h.number in Numbers(Elements(outputs));
  }

  lemma DeletedByNumber(v: Version, m: nat, chosen: seq<FileMeta>, h: FileMeta)
    requires Numbered(v) && m < NUM_LEVELS && h in v[m] && forall f :: f in chosen ==> f in v[m]
    ensures h.number in Numbers(Elements(chosen)) <==> h in chosen
  {
  }

  lemma InstalledIsReplaced(v: Version, c: CompactionInputs, outputs: seq<FileMeta>, v': Version)
    requires Numbered(v) && Chosen(v, c) && UniqueNumbers(Elements(outputs))
    requires forall o, f :: o in outputs && f in v[c.level + 1] ==> o.number != f.number
    requires forall l :: 0 <= l < NUM_LEVELS ==>
      SortedFiles(v'[l]) && Elements(v'[l]) == Saved(Elements(v[l]), ApplyLevel(Fresh(), CompactionEdit(c, outputs), l))
    ensures Replaced(v, c, outputs, v')
  {
    forall m, h | 0 <= m < NUM_LEVELS
      ensures h in v'[m] <==> Left(v, c, m, h) || (m == c.level + 1 && h in outputs)
    {
      SavedIsReplaced(v, c, outputs, m, h);
      assert h in v'[m] <==> h in Elements(v'[m]);
    }
  }

  lemma EditInstallable(v: Version, c: CompactionInputs, outputs: seq<FileMeta>)
    requires c.level + 1 < NUM_LEVELS
    requires forall o, f :: o in outputs && f in v[c.level + 1] ==> o.number != f.number
    ensures var edit := CompactionEdit(c, outputs);
      && LevelsExist(edit)
      && forall l: nat, f, g :: l < NUM_LEVELS && f in v[l] && g in AddedAt(edit, l) ==> f.number != g.number
  {
    var edit := CompactionEdit(c, outputs);
    forall l: nat ensures AddedAt(edit, l) == if l == c.level + 1 then Elements(outputs) else {} {
      EditAt(c, outputs, l);
    }
    forall a | a in edit.added ensures a.0 < NUM_LEVELS {
      var i :| 0 <= i < |edit.added| && edit.added[i] == a;
    }
  }

  /** InstallCompactionResults, for outputs numbered apart from the next level. */
  method InstallCompaction(v: Version, c: CompactionInputs, outputs: seq<FileMeta>) returns (v': Version)
    requires Numbered(v) && Chosen(v, c) && forall l :: 0 <= l < NUM_LEVELS ==> SortedFiles(v[l])
    requires forall o, f :: o in outputs && f in v[c.level + 1] ==> o.number != f.number
    requires UniqueNumbers(Elements(outputs))
    ensures Replaced(v, c, outputs, v')
  {
    var edit := CompactionEdit(c, outputs);
    EditInstallable(v, c, outputs);
    v' := Install(v, edit);
    InstalledIsReplaced(v, c, outputs, v');
  }

  /** Each chunk becomes a table under the next file number. */
  method WriteTables(disk: Disk, next: nat, chunks: seq<seq<Entry>>, size: nat) returns (disk': Disk, outputs: seq<FileMeta>)
    requires forall n :: n in disk ==> n < next
    requires forall c :: c in chunks ==> |c| > 0
    ensures TablesWritten(disk, next, chunks, disk', outputs)
  {
    disk', outputs := disk, [];
    for i := 0 to |chunks|
      invariant TablesWritten(disk, next, chunks[..i], disk', outputs)
    {
      var run := chunks[i];
      assert run in chunks;
      disk' := disk'[next + i := run];
      outputs := outputs + [FileMeta(next + i, size, run[0].key, run[|run| - 1].key)];
    }
    assert chunks[..|chunks|] == chunks;
  }

  /** The trivial move: the one input goes down a level as it is. */
  method MoveDown(disk: Disk, v: Version, c: CompactionInputs) returns (v': Version)
    requires SortedTree(disk, v) && Chosen(v, c) && |c.inputs0| == 1 && c.inputs1 == []
    ensures Replaced(v, c, c.inputs0, v')
  {
    TreeIsShaped(disk, v);
    MovedIsFresh(disk, v, c);
    v' := InstallCompaction(v, c, c.inputs0);
  }

  /**
   DoCompactionWork and InstallCompactionResults. `stop` and `full` decide where
   outputs end; `size` stands for the sizes the table builder reports.
   */
  method MergeDown(disk: Disk, v: Version, c: CompactionInputs, oldest: nat, next: nat,
                   stop: nat -> bool, full: nat -> bool, size: nat)
    returns (disk': Disk, v': Version, chunks: seq<seq<Entry>>, outputs: seq<FileMeta>)
    requires SortedTree(disk, v) && Chosen(v, c) && forall n :: n in disk ==> n < next
    ensures CompactionStep(disk, v, c, oldest, next, chunks, disk', outputs, v')
  {
    TreeIsShaped(disk, v);
    MergedInputSorted(disk, v, c);
    var input := MergedInput(disk, c);
    chunks := DoCompactionWork(v, c.level, input, oldest, seq(|input|, stop), seq(|input|, full));
    disk', outputs := WriteTables(disk, next, chunks, size);
    OutputsAreFresh(disk, v, next, chunks, disk', outputs);
    v' := InstallCompaction(v, c, outputs);
  }

  lemma MovedIsFresh(disk: Disk, v: Version, c: CompactionInputs)
    requires Tree(disk, v) && Chosen(v, c) && |c.inputs0| == 1
    ensures forall o, f :: o in c.inputs0 && f in v[c.level + 1] ==> o.number != f.number
    ensures UniqueNumbers(Elements(c.inputs0))
  {
    forall o, f | o in c.inputs0 && f in v[c.level + 1] ensures o.number != f.number {
      InputPlaced(v, c, c.level, o);
      PairOfTree(disk, v, c.level, o, c.level + 1, f);
    }
    OneIsUnique(c.inputs0);
  }

  lemma OneIsUnique(files: seq<FileMeta>)
    requires |files| == 1
    ensures UniqueNumbers(Elements(files))
  {
    assert forall f :: f in Elements(files) ==> f == files[0];
  }

  lemma OutputsAreFresh(disk: Disk, v: Version, next: nat, chunks: seq<seq<Entry>>, disk': Disk, outputs: seq<FileMeta>)
    requires Tree(disk, v) && TablesWritten(disk, next, chunks, disk', outputs) && forall n :: n in disk ==> n < next
    ensures forall m: nat, h :: Placed(v, m, h) ==> h.number < next
    ensures forall o, m: nat, f :: o in outputs && Placed(v, m, f) ==> o.number != f.number
    ensures UniqueNumbers(Elements(outputs))
  {
    forall m: nat, h | Placed(v, m, h) ensures h.number < next {
      assert Stored(disk, h);
    }
  }

  /** CompactMemTable with WriteLevel0Table: a non-empty immutable memtable becomes one new table. */
  method FlushMemtable(disk: Disk, v: Version, run: seq<Entry>, next: nat, maxFileSize: nat, size: nat)
    returns (disk': Disk, v': Version, f: FileMeta, level: nat)
    requires SortedTree(disk, v) && |run| > 0
    requires forall l :: 0 <= l < NUM_LEVELS ==> Bounded(v[l])
    requires forall n :: n in disk ==> n < next
    ensures f.number == next && level <= MAX_MEM_COMPACT_LEVEL
    ensures Database.TableAdded(disk, v, f, run, level, disk', v')
  {
    TreeIsShaped(disk, v);
    f := FileMeta(next, size, run[0].key, run[|run| - 1].key);
    disk' := disk[next := run];
    level := PickLevelForMemTableOutput(v, f.smallest.user, f.largest.user, maxFileSize);
    forall m: nat, h | Placed(v, m, h) ensures h.number < next {
      assert Stored(disk, h);
    }
    v' := InstallOne(v, level, f);
  }

  method InstallOne(v: Version, level: nat, f: FileMeta) returns (v': Version)
    requires level < NUM_LEVELS && forall l :: 0 <= l < NUM_LEVELS ==> SortedFiles(v[l])
    requires forall m: nat, h :: Placed(v, m, h) ==> h.number < f.number
    ensures Inserted(v, level, f, v')
  {
    var edit := Edit({}, [(level, f)]);
    forall l: nat ensures AddedAt(edit, l) == (if l == level then {f} else {}) && DeletedAt(edit, l) == {} {
      assert (level, f) in edit.added;
    }
    forall l, h, g | 0 <= l < NUM_LEVELS && h in v[l] && g in AddedAt(edit, l) ensures h.number != g.number {
      assert Placed(v, l, h);
    }
    v' := Install(v, edit);
    forall l: nat ensures ApplyLevel(Fresh(), edit, l) == LevelState({}, if l == level then {f} else {}) {
      UniqueApply(edit, l);
      assert {} - Numbers(AddedAt(edit, l)) == {};
    }
    forall m, h | 0 <= m < NUM_LEVELS ensures h in v'[m] <==> Placed(v, m, h) || (m == level && h == f) {
      assert h in v'[m] <==> h in Elements(v'[m]);
    }
  }
}
