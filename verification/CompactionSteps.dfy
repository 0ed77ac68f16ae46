/**
 A whole compaction: merge the inputs, drop what no snapshot needs, write the
 survivors to new tables and install them. It keeps the tree, and changes no
 read exactly when no dropped tombstone uncovers an older value (db_impl.cc).
 */
module CompactionSteps {
  import opened InternalKeys
  import opened Versions
  import opened InputSelection
  import opened TreeSteps
  import opened Compactions

  // ----- the merged input -----

  /** The merging iterator over two sorted runs. */
  function Merge(a: seq<Entry>, b: seq<Entry>): (r: seq<Entry>)
    ensures forall e :: e in r <==> e in a || e in b
    decreases |a| + |b|
  {
    if a == [] then b
    else if b == [] then a
    else if Before(b[0].key, a[0].key) then
      assert b == [b[0]] + b[1..];
      [b[0]] + Merge(a, b[1..])
    else
      assert a == [a[0]] + a[1..];
      [a[0]] + Merge(a[1..], b)
  }

  ghost predicate KeysDiffer(a: set<Entry>, b: set<Entry>) {
    forall x, y :: x in a && y in b ==> x.key != y.key
  }

  lemma HeadFirst(e: Entry, r: seq<Entry>)
    requires Sorted(r) && forall x :: x in r ==> Before(e.key, x.key)
    ensures Sorted([e] + r)
  {
    assert forall i :: 0 <= i < |r| ==> r[i] in r;
  }

  lemma TailSorted(a: seq<Entry>)
    requires Sorted(a) && a != []
    ensures Sorted(a[1..]) && forall x :: x in a[1..] ==> Before(a[0].key, x.key)
  {
  }

  lemma {:induction false} MergeSorted(a: seq<Entry>, b: seq<Entry>)
    requires Sorted(a) && Sorted(b) && KeysDiffer(Elements(a), Elements(b))
    ensures Sorted(Merge(a, b))
    decreases |a| + |b|
  {
    if a != [] && b != [] {
      TailSorted(a);
      TailSorted(b);
      assert a[0] in Elements(a) && b[0] in Elements(b);
      if Before(b[0].key, a[0].key) {
        MergeSorted(a, b[1..]);
        HeadFirst(b[0], Merge(a, b[1..]));
      } else {
        assert Before(a[0].key, b[0].key);
        MergeSorted(a[1..], b);
        HeadFirst(a[0], Merge(a[1..], b));
      }
    }
  }

  /** MakeInputIterator over a list of files. */
  function MergeFiles(disk: Disk, files: seq<FileMeta>): (r: seq<Entry>)
    ensures forall e :: e in r <==> e in Tables(disk, files)
  {
    if files == [] then []
    else
      var n := |files| - 1;
      assert files == files[..n] + [files[n]];
      assert Tables(disk, files) == Tables(disk, files[..n]) + Table(disk, files[n]);
      Merge(MergeFiles(disk, files[..n]), if files[n].number in disk then disk[files[n].number] else [])
  }

  ghost predicate TablesDiffer(disk: Disk, files: seq<FileMeta>) {
    forall i, j :: 0 <= i < j < |files| ==> KeysDiffer(Table(disk, files[i]), Table(disk, files[j]))
  }

  lemma {:induction false} MergeFilesSorted(disk: Disk, files: seq<FileMeta>)
    requires AllStored(disk, files) && TablesDiffer(disk, files)
    ensures Sorted(MergeFiles(disk, files))
  {
    if files != [] {
      var n := |files| - 1;
      MergeFilesSorted(disk, files[..n]);
      assert Stored(disk, files[n]);
      forall x, y | x in Elements(MergeFiles(disk, files[..n])) && y in Table(disk, files[n]) ensures x.key != y.key {
        var f :| f in files[..n] && x in Table(disk, f);
        var i :| 0 <= i < n && files[i] == f;
        assert KeysDiffer(Table(disk, files[i]), Table(disk, files[n]));
      }
      MergeSorted(MergeFiles(disk, files[..n]), disk[files[n].number]);
    }
  }

  /** Two different files of a tree never hold the same internal key. */
  lemma TreeKeysDiffer(disk: Disk, v: Version, l: nat, f: FileMeta, m: nat, g: FileMeta)
    requires Tree(disk, v) && Placed(v, l, f) && Placed(v, m, g) && (l != m || f != g)
    ensures KeysDiffer(Table(disk, f), Table(disk, g))
  {
    PairOfTree(disk, v, l, f, m, g);
    PairOfTree(disk, v, m, g, l, f);
    forall x, y | x in Table(disk, f) && y in Table(disk, g) ensures x.key != y.key {
      WithinFile(disk, f, x);
      WithinFile(disk, g, y);
    }
  }

  function MergedInput(disk: Disk, c: CompactionInputs): seq<Entry> {
    MergeFiles(disk, c.inputs0 + c.inputs1)
  }

  lemma InputAt(v: Version, c: CompactionInputs, i: nat) returns (l: nat)
    requires Chosen(v, c) && i < |c.inputs0 + c.inputs1|
    ensures l == (if i < |c.inputs0| then c.level else c.level + 1) && Placed(v, l, (c.inputs0 + c.inputs1)[i])
  {
    var all := c.inputs0 + c.inputs1;
    if i < |c.inputs0| {
      l := c.level;
      assert all[i] in c.inputs0;
    } else {
      l := c.level + 1;
      assert all[i] in c.inputs1;
    }
  }

  lemma MergedInputSorted(disk: Disk, v: Version, c: CompactionInputs)
    requires SortedTree(disk, v) && Chosen(v, c)
    ensures Sorted(MergedInput(disk, c)) && Elements(MergedInput(disk, c)) == InputEntries(disk, c)
  {
    var all := c.inputs0 + c.inputs1;
    TreeIsShaped(disk, v);
    NextLevelNoDuplicates(v, c);
    forall i, j | 0 <= i < j < |all| ensures KeysDiffer(Table(disk, all[i]), Table(disk, all[j])) {
      var l := InputAt(v, c, i);
      var m := InputAt(v, c, j);
      TreeKeysDiffer(disk, v, l, all[i], m, all[j]);
    }
    forall f | f in all ensures Stored(disk, f) {
      var i :| 0 <= i < |all| && all[i] == f;
      var l := InputAt(v, c, i);
    }
    MergeFilesSorted(disk, all);
  }

  lemma NextLevelNoDuplicates(v: Version, c: CompactionInputs)
    requires Shaped(v) && Chosen(v, c)
    ensures NoDuplicates(c.inputs1)
  {
    var files := v[c.level + 1];
    forall i, j | 0 <= i < j < |files| ensures files[i] != files[j] {
      assert files[j] in files && Before(files[i].largest, files[j].smallest);
    }
    SelectNoDuplicates(files, Some(Smallest(c.inputs0).user), Some(Largest(c.inputs0).user));
  }

  // ----- the outputs -----

  /** The tables written, with fresh consecutive numbers. */
  ghost predicate TablesWritten(disk: Disk, next: nat, chunks: seq<seq<Entry>>, disk': Disk, outputs: seq<FileMeta>) {
    && |outputs| == |chunks|
    && Extends(disk, disk')
    && (forall n :: n in disk' ==> n in disk || n < next + |chunks|)
    && forall i :: 0 <= i < |outputs| ==>
         && outputs[i].number == next + i
         && |chunks[i]| > 0
         && outputs[i].number in disk' && disk'[next + i] == chunks[i]
         && outputs[i].smallest == chunks[i][0].key
         && outputs[i].largest == chunks[i][|chunks[i]| - 1].key
  }

  lemma {:induction false} ChunkOfConcat(chunks: seq<seq<Entry>>, i: nat, j: nat)
    requires Sorted(Concat(chunks)) && i <= j < |chunks|
    ensures Sorted(chunks[i])
    ensures forall e :: e in chunks[i] ==> e in Concat(chunks)
    ensures i < j ==> forall a, b :: a in chunks[i] && b in chunks[j] ==> Before(a.key, b.key)
    decreases |chunks|
  {
    var n := |chunks| - 1;
    var front := Concat(chunks[..n]);
    var all := Concat(chunks);
    assert all == front + chunks[n];
    assert forall k :: 0 <= k < |front| ==> all[k] == front[k];
    assert forall k :: 0 <= k < |chunks[n]| ==> all[|front| + k] == chunks[n][k];
    if j < n {
      ChunkOfConcat(chunks[..n], i, j);
    } else if i < n {
      ChunkOfConcat(chunks[..n], i, i);
    }
  }

  lemma WrittenIsGood(disk: Disk, v: Version, c: CompactionInputs, next: nat, chunks: seq<seq<Entry>>,
                      disk': Disk, outputs: seq<FileMeta>)
    requires Sorted(Concat(chunks)) && Elements(Concat(chunks)) <= InputEntries(disk, c)
    requires TablesWritten(disk, next, chunks, disk', outputs)
    requires forall m: nat, h :: Left(v, c, m, h) ==> h.number < next
    ensures GoodOutputs(disk, disk', v, c, outputs)
  {
    forall i | 0 <= i < |outputs| ensures Stored(disk', outputs[i]) && Table(disk', outputs[i]) <= InputEntries(disk, c) {
      ChunkOfConcat(chunks, i, i);
      assert forall e :: e in chunks[i] ==> e in Elements(Concat(chunks));
    }
    forall i, j | 0 <= i < j < |outputs| ensures Apart(outputs[i], outputs[j]) && outputs[i].number != outputs[j].number {
      ChunkOfConcat(chunks, i, j);
    }
  }

  /** The tables of the outputs hold exactly the survivors. */
  lemma {:induction false} WrittenTables(disk: Disk, next: nat, chunks: seq<seq<Entry>>, disk': Disk, outputs: seq<FileMeta>)
    requires TablesWritten(disk, next, chunks, disk', outputs)
    ensures Tables(disk', outputs) == Elements(Concat(chunks))
  {
    forall e ensures e in Tables(disk', outputs) <==> e in Concat(chunks) {
      InSomeChunk(chunks, e);
      if e in Tables(disk', outputs) {
        var o :| o in outputs && e in Table(disk', o);
        var i :| 0 <= i < |outputs| && outputs[i] == o;
        assert e in chunks[i];
      }
      if e in Concat(chunks) {
        var i :| 0 <= i < |chunks| && e in chunks[i];
        assert outputs[i] in outputs && e in Table(disk', outputs[i]);
      }
    }
  }

  lemma {:induction false} InSomeChunk(chunks: seq<seq<Entry>>, e: Entry)
    ensures e in Concat(chunks) <==> exists i :: 0 <= i < |chunks| && e in chunks[i]
    decreases |chunks|
  {
    if chunks != [] {
      InSomeChunk(chunks[..|chunks| - 1], e);
    }
  }

  // ----- the step -----

  /**
   One compaction on the tree: `chunks` are the outputs DoCompactionWork
   leaves, cut anywhere, written under fresh numbers and installed.
   */
  ghost predicate CompactionStep(disk: Disk, v: Version, c: CompactionInputs, oldest: nat, next: nat,
                                 chunks: seq<seq<Entry>>, disk': Disk, outputs: seq<FileMeta>, v': Version) {
    && Chosen(v, c)
    && Concat(chunks) == Survivors(MergedInput(disk, c), |MergedInput(disk, c)|, oldest, v, c.level)
    && TablesWritten(disk, next, chunks, disk', outputs)
    && (forall m: nat, h :: Placed(v, m, h) ==> h.number < next)
    && Replaced(v, c, outputs, v')
  }

  /** Every compaction keeps the tree and replaces the inputs by their survivors. */
  lemma CompactionKeepsTree(disk: Disk, v: Version, c: CompactionInputs, oldest: nat, next: nat,
                            chunks: seq<seq<Entry>>, disk': Disk, outputs: seq<FileMeta>, v': Version)
    requires SortedTree(disk, v) && CompactionStep(disk, v, c, oldest, next, chunks, disk', outputs, v')
    ensures SortedTree(disk', v')
    ensures Contents(disk, v) == LeftEntries(disk, v, c) + Elements(MergedInput(disk, c))
    ensures Contents(disk', v') == LeftEntries(disk, v, c) + Elements(Concat(chunks))
  {
    var input := MergedInput(disk, c);
    MergedInputSorted(disk, v, c);
    assert forall e :: e in Concat(chunks) ==> e in Elements(input);
    WrittenIsGood(disk, v, c, next, chunks, disk', outputs);
    WrittenTables(disk, next, chunks, disk', outputs);
    ReplacingKeepsTree(disk, disk', v, c, outputs, v');
  }

  /**
   Exactly when a compaction changes no read at or after the oldest snapshot,
   whatever newer data (`mem`, the memtables) lies on top of the tree.
   */
  lemma CompactionChangesNoReadIff(disk: Disk, v: Version, c: CompactionInputs, oldest: nat, next: nat,
                                   chunks: seq<seq<Entry>>, disk': Disk, outputs: seq<FileMeta>, v': Version,
                                   mem: set<Entry>)
    requires SortedTree(disk, v) && CompactionStep(disk, v, c, oldest, next, chunks, disk', outputs, v')
    requires oldest < MAX_SEQUENCE && Distinct(Contents(disk, v) + mem)
    ensures SameViews(Contents(disk, v) + mem, Contents(disk', v') + mem, oldest)
            <==> NothingResurfaces(MergedInput(disk, c), LeftEntries(disk, v, c) + mem, oldest, v, c.level)
  {
    CompactionKeepsTree(disk, v, c, oldest, next, chunks, disk', outputs, v');
    MergedInputSorted(disk, v, c);
    DroppingUnderneath(MergedInput(disk, c), LeftEntries(disk, v, c), mem, oldest, v, c.level,
                       Contents(disk, v), Contents(disk', v'));
  }

  lemma DroppingUnderneath(input: seq<Entry>, left: set<Entry>, mem: set<Entry>, oldest: nat, v: Version, level: nat,
                           before: set<Entry>, after: set<Entry>)
    requires Sorted(input) && oldest < MAX_SEQUENCE && Distinct(before + mem)
    requires before == left + Elements(input)
    requires after == left + Elements(Survivors(input, |input|, oldest, v, level))
    ensures SameViews(before + mem, after + mem, oldest) <==> NothingResurfaces(input, left + mem, oldest, v, level)
  {
    assert before + mem == Elements(input) + (left + mem);
    assert after + mem == Elements(Survivors(input, |input|, oldest, v, level)) + (left + mem);
    DroppingIsInvisibleIff(input, left + mem, oldest, v, level);
  }

  // ----- the condition on the files left behind -----

  /** A file left on the next level that continues the last user key of a chosen one. */
  ghost predicate ContinuesChosen(v: Version, c: CompactionInputs, h: FileMeta)
    requires c.level + 1 < NUM_LEVELS
  {
    h in v[c.level + 1] && h !in c.inputs1 && exists g :: g in c.inputs1 && Continues(h, g.largest)
  }

  ghost function ContinuingEntries(disk: Disk, v: Version, c: CompactionInputs): set<Entry>
    requires c.level + 1 < NUM_LEVELS
  {
    set h, e | h in v[c.level + 1] && ContinuesChosen(v, c, h) && e in Table(disk, h) :: e
  }

  /** Every tombstone of `input` that is dropped though the oldest snapshot reads it has no value below it in `next`. */
  ghost predicate NothingUnder(input: seq<Entry>, all: set<Entry>, next: set<Entry>, oldest: nat, v: Version, level: nat) {
    forall i, x |
      0 <= i < |input| && ObsoleteTombstone(input, i, oldest, v, level)
      && Newest(all, input[i].key.user, oldest, input[i]) && Newest(next, input[i].key.user, oldest, x)
      :: x.key.kind.Deletion?
  }

  /**
   Every deletion the oldest snapshot reads and the compaction drops has no value
   below it in the next-level files that continue a chosen one.
   */
  ghost predicate NothingUncovered(disk: Disk, v: Version, c: CompactionInputs, oldest: nat, mem: set<Entry>)
    requires c.level + 1 < NUM_LEVELS
  {
    NothingUnder(MergedInput(disk, c), Contents(disk, v) + mem, ContinuingEntries(disk, v, c), oldest, v, c.level)
  }

  /** Of two files apart on a level, the one with the older version of a shared key continues the other. */
  lemma OlderContinues(disk: Disk, f: FileMeta, h: FileMeta, t: Entry, x: Entry)
    requires Stored(disk, f) && Stored(disk, h) && Apart(f, h)
    requires t in Table(disk, f) && x in Table(disk, h) && x.key.user == t.key.user && x.key.seqno < t.key.seqno
    ensures Continues(h, f.largest)
  {
    WithinFile(disk, f, t);
    WithinFile(disk, h, x);
    assert Before(t.key, x.key);
  }

  /** A file left on the next level that holds something older than an input entry of the same key continues an input. */
  lemma OlderOnNextLevel(disk: Disk, v: Version, c: CompactionInputs, t: Entry, h: FileMeta, x: Entry)
    requires Tree(disk, v) && Chosen(v, c) && Left(v, c, c.level + 1, h)
    requires t in InputEntries(disk, c) && x in Table(disk, h) && x.key.user == t.key.user && x.key.seqno < t.key.seqno
    ensures ContinuesChosen(v, c, h)
  {
    var l, f := InputFile(disk, c, t);
    InputAgainstLeft(disk, v, c, l, f, h);
    InputFileAgainst(disk, v, c, l, f, t, h, x);
  }

  lemma InputAgainstLeft(disk: Disk, v: Version, c: CompactionInputs, l: nat, f: FileMeta, h: FileMeta)
    requires Tree(disk, v) && Chosen(v, c) && Input(c, l, f) && Left(v, c, c.level + 1, h)
    ensures Stored(disk, f) && Stored(disk, h) && (l == c.level + 1 ==> Apart(f, h))
  {
    InputPlaced(v, c, l, f);
    PairOfTree(disk, v, l, f, c.level + 1, h);
  }

  lemma InputFileAgainst(disk: Disk, v: Version, c: CompactionInputs, l: nat, f: FileMeta, t: Entry, h: FileMeta, x: Entry)
    requires Chosen(v, c) && Stored(disk, f) && Stored(disk, h)
    requires Input(c, l, f) && t in Table(disk, f) && (l == c.level + 1 ==> Apart(f, h))
    requires Left(v, c, c.level + 1, h) && x in Table(disk, h) && x.key.user == t.key.user && x.key.seqno < t.key.seqno
    ensures ContinuesChosen(v, c, h)
  {
    if l == c.level {
      WithinFile(disk, f, t);
      WithinFile(disk, h, x);
      SharedKeyIsChosen(disk, v, c, f, h, t.key.user);
      assert false;
    } else {
      OlderContinues(disk, f, h, t, x);
    }
  }

  /**
   Anything left behind that is older than an input entry of its key is in a
   next-level file that continues an input, or on a deeper level in a file
   covering the key.
   */
  lemma OlderLeftBehind(disk: Disk, v: Version, c: CompactionInputs, t: Entry, m: nat, h: FileMeta, x: Entry)
    requires Tree(disk, v) && Chosen(v, c)
    requires t in InputEntries(disk, c) && Left(v, c, m, h) && x in Table(disk, h)
    requires x.key.user == t.key.user && x.key.seqno < t.key.seqno
    ensures (m == c.level + 1 && ContinuesChosen(v, c, h)) || !BaseLevel(v, c.level, t.key.user)
  {
    if m == c.level + 1 {
      OlderOnNextLevel(disk, v, c, t, h, x);
    } else {
      LeftStands(disk, v, c, m, h);
      OlderIsDeeper(disk, c, m, h, t, x);
      WithinFile(disk, h, x);
      DeeperCovers(v, c.level, m, h, t.key.user);
    }
  }

  lemma OlderIsDeeper(disk: Disk, c: CompactionInputs, m: nat, h: FileMeta, t: Entry, x: Entry)
    requires Stands(disk, c, m, h) && m != c.level + 1 && t in InputEntries(disk, c) && x in Table(disk, h)
    requires x.key.user == t.key.user && x.key.seqno < t.key.seqno
    ensures m > c.level + 1
  {
  }

  lemma DeeperCovers(v: Version, level: nat, m: nat, h: FileMeta, user: UserKey)
    requires Placed(v, m, h) && m > level + 1 && Covers(h, user)
    ensures !BaseLevel(v, level, user)
  {
    var j :| 0 <= j < |v[m]| && v[m][j] == h;
    assert Covers(v[m][j], user);
  }

  lemma SharedKeyIsChosen(disk: Disk, v: Version, c: CompactionInputs, f: FileMeta, h: FileMeta, user: UserKey)
    requires Chosen(v, c) && f in c.inputs0 && Covers(f, user)
    requires h in v[c.level + 1] && Covers(h, user)
    ensures h in c.inputs1
  {
    assert !Before(f.smallest, Smallest(c.inputs0)) && !Before(Largest(c.inputs0), f.largest);
    assert Overlaps(h, Some(Smallest(c.inputs0).user), Some(Largest(c.inputs0).user));
  }

  lemma OlderIsContinuing(disk: Disk, v: Version, c: CompactionInputs, t: Entry, x: Entry)
    requires Tree(disk, v) && Chosen(v, c) && BaseLevel(v, c.level, t.key.user)
    requires t in InputEntries(disk, c) && x in LeftEntries(disk, v, c)
    requires x.key.user == t.key.user && x.key.seqno < t.key.seqno
    ensures x in ContinuingEntries(disk, v, c)
  {
    var m, h := LeftFileOf(disk, v, c, x);
    OlderLeftBehind(disk, v, c, t, m, h, x);
  }

  lemma ContinuingIsLeft(disk: Disk, v: Version, c: CompactionInputs)
    requires c.level + 1 < NUM_LEVELS
    ensures ContinuingEntries(disk, v, c) <= LeftEntries(disk, v, c)
  {
    forall e | e in ContinuingEntries(disk, v, c) ensures e in LeftEntries(disk, v, c) {
      var h :| h in v[c.level + 1] && ContinuesChosen(v, c, h) && e in Table(disk, h);
      assert Left(v, c, c.level + 1, h);
    }
  }

  lemma LeftIsNoInput(disk: Disk, v: Version, c: CompactionInputs, e: Entry)
    requires Tree(disk, v) && Chosen(v, c) && e in LeftEntries(disk, v, c)
    ensures e !in InputEntries(disk, c)
  {
    var m, h := LeftFileOf(disk, v, c, e);
    LeftStands(disk, v, c, m, h);
    WithinFile(disk, h, e);
  }

  ghost predicate OlderIsNext(inputs: set<Entry>, left: set<Entry>, next: set<Entry>, v: Version, level: nat) {
    forall t, x |
      t in inputs && x in left && BaseLevel(v, level, t.key.user) && x.key.user == t.key.user && x.key.seqno < t.key.seqno
      :: x in next
  }

  /** Where the inputs, what they leave, and its part in the continuing files stand. */
  ghost predicate Apportioned(inputs: set<Entry>, left: set<Entry>, next: set<Entry>, v: Version, level: nat) {
    next <= left && inputs !! left && OlderIsNext(inputs, left, next, v, level)
  }

  lemma ChosenApportions(disk: Disk, v: Version, c: CompactionInputs)
    requires Tree(disk, v) && Chosen(v, c)
    ensures Apportioned(InputEntries(disk, c), LeftEntries(disk, v, c), ContinuingEntries(disk, v, c), v, c.level)
  {
    ContinuingIsLeft(disk, v, c);
    forall e | e in LeftEntries(disk, v, c) ensures e !in InputEntries(disk, c) {
      LeftIsNoInput(disk, v, c, e);
    }
    var inputs, left := InputEntries(disk, c), LeftEntries(disk, v, c);
    forall t, x | t in inputs && x in left && BaseLevel(v, c.level, t.key.user) && x.key.user == t.key.user && x.key.seqno < t.key.seqno
      ensures x in ContinuingEntries(disk, v, c)
    {
      OlderIsContinuing(disk, v, c, t, x);
    }
  }

  /** What resurfaces is the newest of the continuing files under a tombstone the oldest snapshot reads. */
  lemma ResurfacesIff(input: seq<Entry>, left: set<Entry>, next: set<Entry>, mem: set<Entry>, i: nat, oldest: nat,
                      v: Version, level: nat, x: Entry)
    requires Sorted(input) && Apportioned(Elements(input), left, next, v, level) && oldest < MAX_SEQUENCE
    requires Distinct(Elements(input) + (left + mem)) && Newer(mem, Elements(input) + left)
    requires i < |input| && ObsoleteTombstone(input, i, oldest, v, level)
    ensures Resurfaces(left + mem, input[i], oldest, x)
            <==> Newest(Elements(input) + (left + mem), input[i].key.user, oldest, input[i])
                 && Newest(next, input[i].key.user, oldest, x) && x.key.kind.Value?
  {
    ObsoleteIsNewest(input, i, oldest, v, level);
    var t := input[i];
    assert t in Elements(input);
    ResurfacesUnder(Elements(input), left, next, mem, t, oldest, x,
                    e => e in left && e.key.user == t.key.user && e.key.seqno < t.key.seqno);
  }

  lemma ResurfacesUnder(input: set<Entry>, left: set<Entry>, next: set<Entry>, mem: set<Entry>, t: Entry, oldest: nat, x: Entry,
                        under: Entry -> bool)
    requires Distinct(input + (left + mem)) && Newer(mem, input + left) && next <= left && t !in left
    requires forall e :: under(e) <==> e in left && e.key.user == t.key.user && e.key.seqno < t.key.seqno
    requires forall e :: under(e) ==> e in next
    requires Newest(input, t.key.user, oldest, t)
    ensures Resurfaces(left + mem, t, oldest, x)
            <==> Newest(input + (left + mem), t.key.user, oldest, t) && Newest(next, t.key.user, oldest, x) && x.key.kind.Value?
  {
    if Resurfaces(left + mem, t, oldest, x) {
      assert x !in mem && under(x);
    }
    if Newest(input + (left + mem), t.key.user, oldest, t) && Newest(next, t.key.user, oldest, x) {
      forall e | e in left + mem && Candidate(e, t.key.user, oldest) ensures e.key.seqno <= x.key.seqno {
        assert e !in mem && under(e);
      }
    }
  }

  /**
   Exactly when a compaction changes no read at or after the oldest snapshot:
   every deletion the oldest snapshot reads and the compaction drops has no value
   below it in the next-level files that continue a chosen one.
   */
  lemma CompactionIsInvisibleIff(disk: Disk, v: Version, c: CompactionInputs, oldest: nat, next: nat,
                                 chunks: seq<seq<Entry>>, disk': Disk, outputs: seq<FileMeta>, v': Version,
                                 mem: set<Entry>)
    requires SortedTree(disk, v) && CompactionStep(disk, v, c, oldest, next, chunks, disk', outputs, v')
    requires oldest < MAX_SEQUENCE && Distinct(Contents(disk, v) + mem) && Newer(mem, Contents(disk, v))
    ensures SameViews(Contents(disk, v) + mem, Contents(disk', v') + mem, oldest) <==> NothingUncovered(disk, v, c, oldest, mem)
  {
    CompactionChangesNoReadIff(disk, v, c, oldest, next, chunks, disk', outputs, v', mem);
    UncoveredIff(disk, v, c, oldest, mem);
  }

  lemma UncoveredIff(disk: Disk, v: Version, c: CompactionInputs, oldest: nat, mem: set<Entry>)
    requires SortedTree(disk, v) && Chosen(v, c) && oldest < MAX_SEQUENCE
    requires Distinct(Contents(disk, v) + mem) && Newer(mem, Contents(disk, v))
    ensures NothingUncovered(disk, v, c, oldest, mem)
            <==> NothingResurfaces(MergedInput(disk, c), LeftEntries(disk, v, c) + mem, oldest, v, c.level)
  {
    MergedInputSorted(disk, v, c);
    InputsAndLeft(disk, v, c);
    ChosenApportions(disk, v, c);
    NothingUnderIff(MergedInput(disk, c), LeftEntries(disk, v, c), ContinuingEntries(disk, v, c), mem, Contents(disk, v),
                    oldest, v, c.level);
  }

  lemma NothingUnderIff(input: seq<Entry>, left: set<Entry>, next: set<Entry>, mem: set<Entry>, tree: set<Entry>, oldest: nat,
                        v: Version, level: nat)
    requires Sorted(input) && Apportioned(Elements(input), left, next, v, level) && oldest < MAX_SEQUENCE
    requires tree == left + Elements(input) && Distinct(tree + mem) && Newer(mem, tree)
    ensures NothingUnder(input, tree + mem, next, oldest, v, level) <==> NothingResurfaces(input, left + mem, oldest, v, level)
  {
    assert tree + mem == Elements(input) + (left + mem) && tree == Elements(input) + left;
    forall i, x | 0 <= i < |input| && ObsoleteTombstone(input, i, oldest, v, level)
      ensures Resurfaces(left + mem, input[i], oldest, x)
              <==> Newest(tree + mem, input[i].key.user, oldest, input[i])
                   && Newest(next, input[i].key.user, oldest, x) && x.key.kind.Value?
    {
      ResurfacesIff(input, left, next, mem, i, oldest, v, level, x);
    }
  }

  /** No file left on the next level continues the last user key of a chosen one. */
  ghost predicate NextLevelClosed(v: Version, c: CompactionInputs)
    requires c.level + 1 < NUM_LEVELS
  {
    forall f, g :: f in v[c.level + 1] && g in c.inputs1 && Continues(f, g.largest) ==> f in c.inputs1
  }

  lemma ClosedUncoversNothing(disk: Disk, v: Version, c: CompactionInputs, oldest: nat, mem: set<Entry>)
    requires c.level + 1 < NUM_LEVELS && NextLevelClosed(v, c)
    ensures NothingUncovered(disk, v, c, oldest, mem)
  {
    assert ContinuingEntries(disk, v, c) == {};
  }

  /** With the next level closed over boundary files too, a compaction changes no live read. */
  lemma ClosedCompactionChangesNoRead(disk: Disk, v: Version, c: CompactionInputs, oldest: nat, next: nat,
                                      chunks: seq<seq<Entry>>, disk': Disk, outputs: seq<FileMeta>, v': Version,
                                      mem: set<Entry>)
    requires SortedTree(disk, v) && CompactionStep(disk, v, c, oldest, next, chunks, disk', outputs, v')
    requires oldest < MAX_SEQUENCE && Distinct(Contents(disk, v) + mem) && Newer(mem, Contents(disk, v))
    requires NextLevelClosed(v, c)
    ensures SameViews(Contents(disk, v) + mem, Contents(disk', v') + mem, oldest)
  {
    ClosedUncoversNothing(disk, v, c, oldest, mem);
    CompactionIsInvisibleIff(disk, v, c, oldest, next, chunks, disk', outputs, v', mem);
  }

  // ----- a compaction that does change a read -----

  const PROBE: Entry := Entry(InternalKey(1.0, 4, Value), [])
  const UNDER: Entry := Entry(InternalKey(1.0, 2, Value), [])
  const TOMBSTONE: Entry := Entry(InternalKey(2.0, 3, Deletion), [])
  const OLD_VALUE: Entry := Entry(InternalKey(2.0, 1, Value), [7])

  const UPPER_FILE: FileMeta := FileMeta(7, 1, PROBE.key, PROBE.key)
  const TOMBSTONE_FILE: FileMeta := FileMeta(4, 1, UNDER.key, TOMBSTONE.key)
  const OLD_FILE: FileMeta := FileMeta(5, 1, OLD_VALUE.key, OLD_VALUE.key)

  /** One file on level 1 above two on level 2, the second of which continues the first. */
  ghost predicate LostTree(disk: Disk, v: Version, c: CompactionInputs) {
    && disk == map[4 := [UNDER, TOMBSTONE], 5 := [OLD_VALUE], 7 := [PROBE]]
    && v == [[], [UPPER_FILE], [TOMBSTONE_FILE, OLD_FILE], [], [], [], []]
    && c == CompactionInputs(1, [UPPER_FILE], [TOMBSTONE_FILE], [])
  }

  lemma LostTables(disk: Disk, v: Version, c: CompactionInputs)
    requires LostTree(disk, v, c)
    ensures Table(disk, UPPER_FILE) == {PROBE}
    ensures Table(disk, TOMBSTONE_FILE) == {UNDER, TOMBSTONE}
    ensures Table(disk, OLD_FILE) == {OLD_VALUE}
    ensures forall l: nat, f :: Placed(v, l, f) ==>
      (l == 1 && f == UPPER_FILE) || (l == 2 && f == TOMBSTONE_FILE) || (l == 2 && f == OLD_FILE)
  {
  }

  lemma LostIsTree(disk: Disk, v: Version, c: CompactionInputs)
    requires LostTree(disk, v, c)
    ensures SortedTree(disk, v)
  {
    LostTables(disk, v, c);
    assert PairwiseFits(disk, v);
    forall e | e in Contents(disk, v) ensures e in {PROBE, UNDER, TOMBSTONE, OLD_VALUE} {
      var m, h := FileOf(disk, v, e);
    }
    TreeOfPairs(disk, v);
  }

  /** SetupOtherInputs' choice: OLD_FILE lies outside the range of UPPER_FILE. */
  lemma LostIsChosen(disk: Disk, v: Version, c: CompactionInputs)
    requires LostTree(disk, v, c)
    ensures Chosen(v, c) && !NextLevelClosed(v, c)
  {
    var files := v[2];
    SelectStep(files, Some(1.0), Some(1.0), 0);
    SelectStep(files, Some(1.0), Some(1.0), 1);
    assert files[..2] == files && files[..0] == [];
    assert Smallest(c.inputs0) == PROBE.key && Largest(c.inputs0) == PROBE.key;
    assert TOMBSTONE_FILE in c.inputs1 && OLD_FILE in files && Continues(OLD_FILE, TOMBSTONE_FILE.largest);
  }

  lemma LostEntries(disk: Disk, v: Version, c: CompactionInputs)
    requires LostTree(disk, v, c)
    ensures InputEntries(disk, c) == {PROBE, UNDER, TOMBSTONE}
    ensures LeftEntries(disk, v, c) == {OLD_VALUE}
    ensures c.level == 1 && forall l :: 3 <= l < NUM_LEVELS ==> v[l] == []
  {
    LostTables(disk, v, c);
    assert UPPER_FILE in c.inputs0 && TOMBSTONE_FILE in c.inputs1;
    assert OLD_FILE in v[2] && Left(v, c, 2, OLD_FILE);
    forall e | e in LeftEntries(disk, v, c) ensures e == OLD_VALUE {
      var m, h := LeftFileOf(disk, v, c, e);
    }
  }

  /** A compaction that uncovers a value shows it to the oldest snapshot. */
  lemma UncoveredValueShows(disk: Disk, v: Version, c: CompactionInputs, oldest: nat, next: nat, chunks: seq<seq<Entry>>,
                            disk': Disk, outputs: seq<FileMeta>, v': Version, i: nat, x: Entry)
    requires SortedTree(disk, v) && CompactionStep(disk, v, c, oldest, next, chunks, disk', outputs, v') && oldest < MAX_SEQUENCE
    requires i < |MergedInput(disk, c)| && ObsoleteTombstone(MergedInput(disk, c), i, oldest, v, c.level)
    requires Resurfaces(LeftEntries(disk, v, c), MergedInput(disk, c)[i], oldest, x)
    ensures View(Contents(disk, v), x.key.user, oldest) == None
    ensures View(Contents(disk', v'), x.key.user, oldest) == Some(x.value)
  {
    CompactionKeepsTree(disk, v, c, oldest, next, chunks, disk', outputs, v');
    MergedInputSorted(disk, v, c);
    UncoveredIn(MergedInput(disk, c), LeftEntries(disk, v, c), i, x, oldest, v, c.level, Contents(disk, v), Contents(disk', v'));
  }

  lemma UncoveredIn(input: seq<Entry>, left: set<Entry>, i: nat, x: Entry, oldest: nat, v: Version, level: nat,
                    before: set<Entry>, after: set<Entry>)
    requires Sorted(input) && Distinct(before) && oldest < MAX_SEQUENCE
    requires before == left + Elements(input) && after == left + Elements(Survivors(input, |input|, oldest, v, level))
    requires i < |input| && ObsoleteTombstone(input, i, oldest, v, level) && Resurfaces(left, input[i], oldest, x)
    ensures View(before, x.key.user, oldest) == None && View(after, x.key.user, oldest) == Some(x.value)
  {
    assert before == Elements(input) + left;
    assert after == Elements(Survivors(input, |input|, oldest, v, level)) + left;
    ResurfacingIsVisible(input, i, left, x, oldest, v, level);
  }

  /**
   On this tree the choice SetupOtherInputs makes drops the tombstone over
   OLD_VALUE: every compaction of it makes the deleted value readable again.
   */
  lemma DeletedValueReappears(disk: Disk, v: Version, c: CompactionInputs, chunks: seq<seq<Entry>>,
                              disk': Disk, outputs: seq<FileMeta>, v': Version)
    requires LostTree(disk, v, c) && CompactionStep(disk, v, c, 4, 8, chunks, disk', outputs, v')
    ensures View(Contents(disk, v), 2.0, 4) == None
    ensures View(Contents(disk', v'), 2.0, 4) == Some([7])
  {
    LostIsTree(disk, v, c);
    LostFacts(disk, v, c);
    TombstoneUncovers(disk, v, c, chunks, disk', outputs, v');
  }

  ghost predicate Lost(input: seq<Entry>, left: set<Entry>, level: nat, v: Version) {
    && Sorted(input) && Elements(input) == {PROBE, UNDER, TOMBSTONE} && left == {OLD_VALUE}
    && level == 1 && forall l :: 3 <= l < NUM_LEVELS ==> v[l] == []
  }

  lemma LostBy(input: seq<Entry>, inputs: set<Entry>, left: set<Entry>, level: nat, v: Version)
    requires Sorted(input) && Elements(input) == inputs && inputs == {PROBE, UNDER, TOMBSTONE} && left == {OLD_VALUE}
    requires level == 1 && forall l :: 3 <= l < NUM_LEVELS ==> v[l] == []
    ensures Lost(input, left, level, v)
  {
  }

  lemma LostFacts(disk: Disk, v: Version, c: CompactionInputs)
    requires LostTree(disk, v, c)
    ensures Lost(MergedInput(disk, c), LeftEntries(disk, v, c), c.level, v)
  {
    LostInput(disk, v, c);
    LostEntries(disk, v, c);
    LostBy(MergedInput(disk, c), InputEntries(disk, c), LeftEntries(disk, v, c), c.level, v);
  }

  lemma TombstoneUncovers(disk: Disk, v: Version, c: CompactionInputs, chunks: seq<seq<Entry>>,
                          disk': Disk, outputs: seq<FileMeta>, v': Version)
    requires SortedTree(disk, v) && CompactionStep(disk, v, c, 4, 8, chunks, disk', outputs, v')
    requires Lost(MergedInput(disk, c), LeftEntries(disk, v, c), c.level, v)
    ensures View(Contents(disk, v), 2.0, 4) == None
    ensures View(Contents(disk', v'), 2.0, 4) == Some([7])
  {
    var i := TombstoneIndex(v, MergedInput(disk, c), LeftEntries(disk, v, c));
    UncoveredValueShows(disk, v, c, 4, 8, chunks, disk', outputs, v', i, OLD_VALUE);
  }

  lemma LostInput(disk: Disk, v: Version, c: CompactionInputs)
    requires LostTree(disk, v, c)
    ensures Sorted(MergedInput(disk, c)) && Elements(MergedInput(disk, c)) == InputEntries(disk, c)
  {
    LostIsTree(disk, v, c);
    LostIsChosen(disk, v, c);
    MergedInputSorted(disk, v, c);
  }

  lemma TombstoneIndex(v: Version, input: seq<Entry>, left: set<Entry>) returns (i: nat)
    requires Elements(input) == {PROBE, UNDER, TOMBSTONE} && Sorted(input) && left == {OLD_VALUE}
    requires forall l :: 3 <= l < NUM_LEVELS ==> v[l] == []
    ensures i < |input| && ObsoleteTombstone(input, i, 4, v, 1) && Resurfaces(left, input[i], 4, OLD_VALUE)
  {
    assert TOMBSTONE in Elements(input);
    i :| 0 <= i < |input| && input[i] == TOMBSTONE;
    assert i > 0 ==> input[i - 1] in Elements(input) && Before(input[i - 1].key, input[i].key);
  }
}
