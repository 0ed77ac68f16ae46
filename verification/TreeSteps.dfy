/**
 The three steps that change the tree - flushing a memtable, moving a file
 down, and compacting - each keep every tree invariant (db_impl.cc,
 version_set.cc).
 */
module TreeSteps {
  import opened InternalKeys
  import opened Versions
  import opened InputSelection
  import opened VersionBuilder

  // ----- the tree invariant, pair by pair -----

  predicate Apart(f: FileMeta, g: FileMeta) {
    Before(f.largest, g.smallest) || Before(g.largest, f.smallest)
  }

  /** What two files placed at levels `l` and `m` owe each other. */
  ghost predicate Fits(disk: Disk, l: nat, f: FileMeta, m: nat, g: FileMeta) {
    && (l < m ==> Newer(Table(disk, f), Table(disk, g)))
    && (l == m && l > 0 ==> Apart(f, g))
    && (l == m == 0 && f.number > g.number ==> Newer(Table(disk, f), Table(disk, g)))
  }

  /** The files of a version with their levels. */
  ghost predicate Placed(v: Version, l: nat, f: FileMeta) {
    l < NUM_LEVELS && f in v[l]
  }

  ghost predicate PairwiseFits(disk: Disk, v: Version) {
    forall l: nat, f, m: nat, g | Placed(v, l, f) && Placed(v, m, g) && (l != m || f != g) ::
      f.number != g.number && Fits(disk, l, f, m, g)
  }

  /** A tree whose levels are sorted the way SaveTo leaves them. */
  ghost predicate SortedTree(disk: Disk, v: Version) {
    Tree(disk, v) && forall l :: 0 <= l < NUM_LEVELS ==> SortedFiles(v[l])
  }

  lemma StoredOrdered(disk: Disk, f: FileMeta)
    requires Stored(disk, f)
    ensures !Before(f.largest, f.smallest)
  {
    RunEnds(disk[f.number], 0);
  }

  /** Two files of a tree. */
  lemma PairOfTree(disk: Disk, v: Version, l: nat, f: FileMeta, m: nat, g: FileMeta)
    requires Tree(disk, v) && Placed(v, l, f) && Placed(v, m, g) && (l != m || f != g)
    ensures Stored(disk, f) && Stored(disk, g) && f.number != g.number && Fits(disk, l, f, m, g)
  {
    var i :| 0 <= i < |v[l]| && v[l][i] == f;
    var j :| 0 <= j < |v[m]| && v[m][j] == g;
    if l < m {
      assert Newer(Tables(disk, v[l]), Tables(disk, v[m]));
      assert Table(disk, f) <= Tables(disk, v[l]) && Table(disk, g) <= Tables(disk, v[m]);
    } else if l == m > 0 {
      assert Disjoint(v[l]);
    }
  }

  lemma PairsOfTree(disk: Disk, v: Version)
    requires Tree(disk, v)
    ensures PairwiseFits(disk, v)
  {
    forall l: nat, f, m: nat, g | Placed(v, l, f) && Placed(v, m, g) && (l != m || f != g)
      ensures f.number != g.number && Fits(disk, l, f, m, g)
    {
      PairOfTree(disk, v, l, f, m, g);
    }
  }

  lemma DisjointFromPairs(disk: Disk, files: seq<FileMeta>)
    requires AllStored(disk, files) && SortedFiles(files)
    requires forall f, g :: f in files && g in files && f != g ==> Apart(f, g)
    ensures Disjoint(files)
  {
    forall i, j | 0 <= i < j < |files| ensures Before(files[i].largest, files[j].smallest) {
      assert files[i] in files && files[j] in files && BySmallest(files[i], files[j]);
      StoredOrdered(disk, files[j]);
      assert Apart(files[i], files[j]);
    }
  }

  lemma NumberedFromPairs(disk: Disk, v: Version)
    requires PairwiseFits(disk, v)
    requires forall l :: 0 <= l < NUM_LEVELS ==> SortedFiles(v[l])
    ensures Numbered(v)
  {
    forall l, m, i, j | 0 <= l < NUM_LEVELS && 0 <= m < NUM_LEVELS && 0 <= i < |v[l]| && 0 <= j < |v[m]|
      ensures v[l][i].number == v[m][j].number ==> l == m && i == j
    {
      assert Placed(v, l, v[l][i]) && Placed(v, m, v[m][j]);
      assert l == m && i < j ==> BySmallest(v[l][i], v[m][j]);
      assert l == m && j < i ==> BySmallest(v[m][j], v[l][i]);
    }
  }

  lemma RecencyFromPairs(disk: Disk, v: Version)
    requires PairwiseFits(disk, v)
    ensures LevelRecency(disk, v) && Level0Recency(disk, v[0])
  {
    forall l, m | 0 <= l < m < NUM_LEVELS ensures Newer(Tables(disk, v[l]), Tables(disk, v[m])) {
      forall f, g | f in v[l] && g in v[m] ensures Newer(Table(disk, f), Table(disk, g)) {
        assert Placed(v, l, f) && Placed(v, m, g);
      }
    }
    forall f, g | f in v[0] && g in v[0] && f.number > g.number ensures Newer(Table(disk, f), Table(disk, g)) {
      assert Placed(v, 0, f) && Placed(v, 0, g);
    }
  }

  lemma TreeOfPairs(disk: Disk, v: Version)
    requires forall l :: 0 <= l < NUM_LEVELS ==> AllStored(disk, v[l]) && SortedFiles(v[l])
    requires PairwiseFits(disk, v) && Distinct(Contents(disk, v))
    ensures SortedTree(disk, v)
  {
    forall l | 0 < l < NUM_LEVELS ensures Disjoint(v[l]) {
      forall f, g | f in v[l] && g in v[l] && f != g ensures Apart(f, g) {
        assert Placed(v, l, f) && Placed(v, l, g);
      }
      DisjointFromPairs(disk, v[l]);
    }
    NumberedFromPairs(disk, v);
    RecencyFromPairs(disk, v);
  }

  lemma TreeIsShaped(disk: Disk, v: Version)
    requires Tree(disk, v)
    ensures Shaped(v)
  {
    forall l, f | 0 <= l < NUM_LEVELS && f in v[l] ensures !Before(f.largest, f.smallest) {
      StoredOrdered(disk, f);
    }
    forall i, j | 0 <= i < j < |v[0]| ensures v[0][i] != v[0][j] {
    }
  }

  // ----- what a compaction's outputs owe the files left behind -----

  ghost predicate Left(v: Version, c: CompactionInputs, m: nat, h: FileMeta) {
    Placed(v, m, h) && (m == c.level ==> h !in c.inputs0) && (m == c.level + 1 ==> h !in c.inputs1)
  }

  ghost function InputEntries(disk: Disk, c: CompactionInputs): set<Entry> {
    Tables(disk, c.inputs0) + Tables(disk, c.inputs1)
  }

  /** Of two files apart on a level, the one the other does not continue is the newer on a shared key. */
  lemma AheadIsNewer(disk: Disk, h: FileMeta, f: FileMeta)
    requires Stored(disk, h) && Stored(disk, f) && Apart(h, f) && !Continues(h, f.largest)
    requires Distinct(Table(disk, h) + Table(disk, f))
    ensures Newer(Table(disk, h), Table(disk, f))
  {
    forall a, b | a in Table(disk, h) && b in Table(disk, f) && a.key.user == b.key.user ensures a.key.seqno > b.key.seqno {
      WithinFile(disk, h, a);
      WithinFile(disk, f, b);
      assert Before(h.largest, f.smallest);
    }
  }

  /** A file left on the compacted level holds only newer versions than the inputs. */
  lemma LeftOnLevel(disk: Disk, v: Version, c: CompactionInputs, h: FileMeta, f: FileMeta)
    requires Tree(disk, v) && Chosen(v, c) && Left(v, c, c.level, h) && f in c.inputs0
    ensures Newer(Table(disk, h), Table(disk, f))
  {
    PairOfTree(disk, v, c.level, h, c.level, f);
    if c.level == 0 {
      forall a, b | a in Table(disk, h) && b in Table(disk, f) && a.key.user == b.key.user ensures Meet(h, f) {
        WithinFile(disk, h, a);
        WithinFile(disk, f, b);
      }
    } else {
      forall e | e in Table(disk, h) + Table(disk, f) ensures e in Contents(disk, v) {
        InContents(disk, v, c.level, if e in Table(disk, h) then h else f, e);
      }
      AheadIsNewer(disk, h, f);
    }
  }

  lemma InContents(disk: Disk, v: Version, l: nat, f: FileMeta, e: Entry)
    requires Placed(v, l, f) && e in Table(disk, f)
    ensures e in Contents(disk, v)
  {
    assert e in Tables(disk, v[l]);
  }

  /** A file left on the next level lies wholly to one side of all the inputs. */
  lemma LeftOnNextLevel(disk: Disk, v: Version, c: CompactionInputs, h: FileMeta)
    requires Tree(disk, v) && Chosen(v, c) && Left(v, c, c.level + 1, h)
    ensures (forall e :: e in InputEntries(disk, c) ==> Before(h.largest, e.key)) ||
            (forall e :: e in InputEntries(disk, c) ==> Before(e.key, h.smallest))
  {
    var lo := Smallest(c.inputs0).user;
    forall e | e in InputEntries(disk, c)
      ensures if h.largest.user < lo then Before(h.largest, e.key) else Before(e.key, h.smallest)
    {
      if e in Tables(disk, c.inputs0) {
        InputAside(disk, v, c, h, e);
      } else {
        var f :| f in c.inputs1 && e in Table(disk, f);
        NextInputAside(disk, v, c, h, f, e);
      }
    }
  }

  /** A file outside the range of the inputs lies beside everything in them. */
  lemma OutsideRange(inputs0: seq<FileMeta>, h: FileMeta, f: FileMeta, key: InternalKey)
    requires f in inputs0 && !Before(key, f.smallest) && !Before(f.largest, key)
    requires !Overlaps(h, Some(Smallest(inputs0).user), Some(Largest(inputs0).user))
    ensures if h.largest.user < Smallest(inputs0).user then Before(h.largest, key) else Before(key, h.smallest)
  {
    assert !Before(f.smallest, Smallest(inputs0)) && !Before(Largest(inputs0), f.largest);
  }

  lemma LeftIsOutside(v: Version, c: CompactionInputs, h: FileMeta)
    requires Chosen(v, c) && Left(v, c, c.level + 1, h)
    ensures c.inputs0 != [] && !Overlaps(h, Some(Smallest(c.inputs0).user), Some(Largest(c.inputs0).user))
  {
  }

  lemma InputStored(disk: Disk, v: Version, c: CompactionInputs, f: FileMeta)
    requires Tree(disk, v) && Chosen(v, c) && f in c.inputs0
    ensures Stored(disk, f)
  {
    InputPlaced(v, c, c.level, f);
  }

  lemma InputAside(disk: Disk, v: Version, c: CompactionInputs, h: FileMeta, e: Entry)
    requires Tree(disk, v) && Chosen(v, c) && Left(v, c, c.level + 1, h) && e in Tables(disk, c.inputs0)
    ensures if h.largest.user < Smallest(c.inputs0).user then Before(h.largest, e.key) else Before(e.key, h.smallest)
  {
    LeftIsOutside(v, c, h);
    var f :| f in c.inputs0 && e in Table(disk, f);
    InputStored(disk, v, c, f);
    WithinFile(disk, f, e);
    OutsideRange(c.inputs0, h, f, e.key);
  }

  lemma NextInputAside(disk: Disk, v: Version, c: CompactionInputs, h: FileMeta, f: FileMeta, e: Entry)
    requires Tree(disk, v) && Chosen(v, c) && Left(v, c, c.level + 1, h) && f in c.inputs1 && e in Table(disk, f)
    ensures if h.largest.user < Smallest(c.inputs0).user then Before(h.largest, e.key) else Before(e.key, h.smallest)
  {
    NextApart(disk, v, c, h, f);
    NextLevelSides(v, c, h, f);
    WithinFile(disk, f, e);
  }

  lemma NextApart(disk: Disk, v: Version, c: CompactionInputs, h: FileMeta, f: FileMeta)
    requires Tree(disk, v) && Chosen(v, c) && Left(v, c, c.level + 1, h) && f in c.inputs1
    ensures Stored(disk, f) && Apart(h, f) && !Before(h.largest, h.smallest) && !Before(f.largest, f.smallest)
  {
    InRangeOrNot(v, c, h, f);
    ApartOnLevel(disk, v, c.level + 1, h, f);
  }

  lemma NextLevelSides(v: Version, c: CompactionInputs, h: FileMeta, f: FileMeta)
    requires Chosen(v, c) && Left(v, c, c.level + 1, h) && f in c.inputs1
    requires Apart(h, f) && !Before(h.largest, h.smallest) && !Before(f.largest, f.smallest)
    ensures if h.largest.user < Smallest(c.inputs0).user then Before(h.largest, f.smallest) else Before(f.largest, h.smallest)
  {
    InRangeOrNot(v, c, h, f);
    SidesOfRange(h, f, Smallest(c.inputs0).user, Largest(c.inputs0).user);
  }

  /** On the next level exactly the inputs meet the range. */
  lemma InRangeOrNot(v: Version, c: CompactionInputs, h: FileMeta, f: FileMeta)
    requires Chosen(v, c) && Left(v, c, c.level + 1, h) && f in c.inputs1
    ensures f in v[c.level + 1] && h != f && c.inputs0 != []
    ensures var lo, hi := Some(Smallest(c.inputs0).user), Some(Largest(c.inputs0).user);
      !Overlaps(h, lo, hi) && Overlaps(f, lo, hi)
  {
  }

  lemma ApartOnLevel(disk: Disk, v: Version, l: nat, h: FileMeta, f: FileMeta)
    requires Tree(disk, v) && Placed(v, l, h) && Placed(v, l, f) && h != f && l > 0
    ensures Apart(h, f) && !Before(h.largest, h.smallest) && !Before(f.largest, f.smallest)
  {
    PairOfTree(disk, v, l, h, l, f);
    StoredOrdered(disk, h);
    StoredOrdered(disk, f);
  }

  lemma SidesOfRange(h: FileMeta, f: FileMeta, lo: UserKey, hi: UserKey)
    requires Apart(h, f) && !Before(h.largest, h.smallest) && !Before(f.largest, f.smallest)
    requires !Overlaps(h, Some(lo), Some(hi)) && Overlaps(f, Some(lo), Some(hi))
    ensures if h.largest.user < lo then Before(h.largest, f.smallest) else Before(f.largest, h.smallest)
  {
  }

  ghost predicate Input(c: CompactionInputs, l: nat, f: FileMeta) {
    (l == c.level && f in c.inputs0) || (l == c.level + 1 && f in c.inputs1)
  }

  /** Levels further away: recency holds against each input file. */
  lemma LeftAgainstInput(disk: Disk, v: Version, c: CompactionInputs, m: nat, h: FileMeta, l: nat, f: FileMeta)
    requires Tree(disk, v) && Chosen(v, c) && Left(v, c, m, h) && m != c.level + 1 && Input(c, l, f)
    ensures m <= c.level ==> Newer(Table(disk, h), Table(disk, f))
    ensures m > c.level ==> Newer(Table(disk, f), Table(disk, h))
  {
    InputPlaced(v, c, l, f);
    if m == l {
      LeftOnLevel(disk, v, c, h, f);
    } else {
      AcrossLevels(disk, v, m, h, l, f);
    }
  }

  lemma InputPlaced(v: Version, c: CompactionInputs, l: nat, f: FileMeta)
    requires Chosen(v, c) && Input(c, l, f)
    ensures Placed(v, l, f)
  {
  }

  lemma AcrossLevels(disk: Disk, v: Version, m: nat, h: FileMeta, l: nat, f: FileMeta)
    requires Tree(disk, v) && Placed(v, m, h) && Placed(v, l, f) && m != l
    ensures m < l ==> Newer(Table(disk, h), Table(disk, f))
    ensures m > l ==> Newer(Table(disk, f), Table(disk, h))
  {
    PairOfTree(disk, v, m, h, l, f);
    PairOfTree(disk, v, l, f, m, h);
  }

  lemma LeftElsewhere(disk: Disk, v: Version, c: CompactionInputs, m: nat, h: FileMeta)
    requires Tree(disk, v) && Chosen(v, c) && Left(v, c, m, h) && m != c.level + 1
    ensures m <= c.level ==> Newer(Table(disk, h), InputEntries(disk, c))
    ensures m > c.level ==> Newer(InputEntries(disk, c), Table(disk, h))
  {
    forall a, b | a in Table(disk, h) && b in InputEntries(disk, c) && a.key.user == b.key.user
      ensures m <= c.level ==> a.key.seqno > b.key.seqno
      ensures m > c.level ==> b.key.seqno > a.key.seqno
    {
      var l, f := InputFile(disk, c, b);
      LeftAgainstInput(disk, v, c, m, h, l, f);
    }
  }

  lemma InputFile(disk: Disk, c: CompactionInputs, e: Entry) returns (l: nat, f: FileMeta)
    requires e in InputEntries(disk, c)
    ensures Input(c, l, f) && e in Table(disk, f)
  {
    if e in Tables(disk, c.inputs0) {
      l := c.level;
      f :| f in c.inputs0 && e in Table(disk, f);
    } else {
      l := c.level + 1;
      f :| f in c.inputs1 && e in Table(disk, f);
    }
  }

  // ----- compaction and trivial move -----

  /** Tables are never rewritten; new ones may appear. */
  ghost predicate Extends(disk: Disk, disk': Disk) {
    forall n :: n in disk ==> n in disk' && disk'[n] == disk[n]
  }

  /** The version after the inputs are replaced by `outputs` on the next level. */
  ghost predicate Replaced(v: Version, c: CompactionInputs, outputs: seq<FileMeta>, v': Version)
    requires c.level + 1 < NUM_LEVELS
  {
    forall m :: 0 <= m < NUM_LEVELS ==>
      && SortedFiles(v'[m])
      && forall h :: h in v'[m] <==> Left(v, c, m, h) || (m == c.level + 1 && h in outputs)
  }

  /** Output files: stored, apart from each other, numbered apart from what is left, holding input entries only. */
  ghost predicate GoodOutputs(disk: Disk, disk': Disk, v: Version, c: CompactionInputs, outputs: seq<FileMeta>) {
    && Extends(disk, disk')
    && (forall o :: o in outputs ==> Stored(disk', o) && Table(disk', o) <= InputEntries(disk, c))
    && (forall o, p :: o in outputs && p in outputs && o != p ==> o.number != p.number && Apart(o, p))
    && (forall o, m, h :: o in outputs && Left(v, c, m, h) ==> o.number != h.number)
  }

  lemma FitsFromRecency(disk: Disk, level: nat, o: FileMeta, m: nat, h: FileMeta, inputs: set<Entry>)
    requires Table(disk, o) <= inputs && m != level
    requires m < level ==> Newer(Table(disk, h), inputs)
    requires m > level ==> Newer(inputs, Table(disk, h))
    ensures Fits(disk, level, o, m, h) && Fits(disk, m, h, level, o)
  {
  }

  lemma FitsFromSides(disk: Disk, level: nat, o: FileMeta, h: FileMeta, inputs: set<Entry>)
    requires Stored(disk, o) && Table(disk, o) <= inputs && level > 0
    requires (forall e :: e in inputs ==> Before(h.largest, e.key)) || (forall e :: e in inputs ==> Before(e.key, h.smallest))
    ensures Fits(disk, level, o, level, h) && Fits(disk, level, h, level, o)
  {
    var run := disk[o.number];
    assert run[0] in Table(disk, o) && run[|run| - 1] in Table(disk, o);
  }

  /** Where a file left behind stands against the inputs. */
  ghost predicate Stands(disk: Disk, c: CompactionInputs, m: nat, h: FileMeta) {
    && Stored(disk, h)
    && (m <= c.level ==> Newer(Table(disk, h), InputEntries(disk, c)))
    && (m > c.level + 1 ==> Newer(InputEntries(disk, c), Table(disk, h)))
    && (m == c.level + 1 ==> (forall e :: e in InputEntries(disk, c) ==> Before(h.largest, e.key)) ||
                             (forall e :: e in InputEntries(disk, c) ==> Before(e.key, h.smallest)))
  }

  lemma LeftStands(disk: Disk, v: Version, c: CompactionInputs, m: nat, h: FileMeta)
    requires Tree(disk, v) && Chosen(v, c) && Left(v, c, m, h)
    ensures Stands(disk, c, m, h)
  {
    if m == c.level + 1 {
      LeftOnNextLevel(disk, v, c, h);
    } else {
      LeftElsewhere(disk, v, c, m, h);
    }
  }

  /** Everything the inputs' choice guarantees about the rest of the tree. */
  ghost predicate Separated(disk: Disk, v: Version, c: CompactionInputs) {
    forall m: nat, h :: Left(v, c, m, h) ==> Stands(disk, c, m, h)
  }

  lemma ChosenIsSeparated(disk: Disk, v: Version, c: CompactionInputs)
    requires Tree(disk, v) && Chosen(v, c)
    ensures Separated(disk, v, c)
  {
    forall m: nat, h | Left(v, c, m, h) ensures Stands(disk, c, m, h) {
      LeftStands(disk, v, c, m, h);
    }
  }

  lemma OutputAgainstLeft(disk: Disk, disk': Disk, c: CompactionInputs, o: FileMeta, m: nat, h: FileMeta)
    requires Extends(disk, disk') && Stands(disk, c, m, h)
    requires Stored(disk', o) && Table(disk', o) <= InputEntries(disk, c)
    ensures Fits(disk', c.level + 1, o, m, h) && Fits(disk', m, h, c.level + 1, o)
  {
    assert Table(disk', h) == Table(disk, h);
    if m == c.level + 1 {
      FitsFromSides(disk', m, o, h, InputEntries(disk, c));
    } else {
      FitsFromRecency(disk', c.level + 1, o, m, h, InputEntries(disk, c));
    }
  }

  lemma LeftAgainstLeft(disk: Disk, disk': Disk, l: nat, f: FileMeta, m: nat, g: FileMeta)
    requires Extends(disk, disk') && f.number in disk && g.number in disk && Fits(disk, l, f, m, g)
    ensures Fits(disk', l, f, m, g)
  {
    assert Table(disk', f) == Table(disk, f) && Table(disk', g) == Table(disk, g);
  }

  lemma ReplacedPairs(disk: Disk, disk': Disk, v: Version, c: CompactionInputs, outputs: seq<FileMeta>, v': Version)
    requires c.level + 1 < NUM_LEVELS && PairwiseFits(disk, v) && Separated(disk, v, c)
    requires GoodOutputs(disk, disk', v, c, outputs) && Replaced(v, c, outputs, v')
    ensures PairwiseFits(disk', v')
  {
    forall l: nat, f, m: nat, g | Placed(v', l, f) && Placed(v', m, g) && (l != m || f != g)
      ensures f.number != g.number && Fits(disk', l, f, m, g)
    {
      if Left(v, c, l, f) {
        if Left(v, c, m, g) {
          LeftAgainstLeft(disk, disk', l, f, m, g);
        } else {
          OutputAgainstLeft(disk, disk', c, g, l, f);
        }
      } else if Left(v, c, m, g) {
        OutputAgainstLeft(disk, disk', c, f, m, g);
      }
    }
  }

  ghost function LeftEntries(disk: Disk, v: Version, c: CompactionInputs): set<Entry> {
    set m: nat, h, e | 0 <= m < NUM_LEVELS && h in v[m] && Left(v, c, m, h) && e in Table(disk, h) :: e
  }

  lemma FileOf(disk: Disk, v: Version, e: Entry) returns (m: nat, h: FileMeta)
    requires e in Contents(disk, v)
    ensures Placed(v, m, h) && e in Table(disk, h)
  {
    m :| 0 <= m < NUM_LEVELS && e in Tables(disk, v[m]);
    h :| h in v[m] && e in Table(disk, h);
  }

  lemma LeftFileOf(disk: Disk, v: Version, c: CompactionInputs, e: Entry) returns (m: nat, h: FileMeta)
    requires e in LeftEntries(disk, v, c)
    ensures Left(v, c, m, h) && e in Table(disk, h)
  {
    var m': nat, h' :| 0 <= m' < NUM_LEVELS && h' in v[m'] && Left(v, c, m', h') && e in Table(disk, h');
    m, h := m', h';
  }

  /** What the new version serves: everything left, and the outputs. */
  lemma ReplacedContents(disk: Disk, disk': Disk, v: Version, c: CompactionInputs, outputs: seq<FileMeta>, v': Version)
    requires c.level + 1 < NUM_LEVELS && Extends(disk, disk') && Replaced(v, c, outputs, v')
    requires forall m: nat, h :: Left(v, c, m, h) ==> h.number in disk
    ensures Contents(disk', v') == LeftEntries(disk, v, c) + Tables(disk', outputs)
  {
    forall e | e in Contents(disk', v') ensures e in LeftEntries(disk, v, c) + Tables(disk', outputs) {
      var m, h := FileOf(disk', v', e);
      assert Left(v, c, m, h) ==> Table(disk', h) == Table(disk, h);
    }
    forall e | e in LeftEntries(disk, v, c) ensures e in Contents(disk', v') {
      var m, h := LeftFileOf(disk, v, c, e);
      assert Table(disk', h) == Table(disk, h);
      InContents(disk', v', m, h, e);
    }
    forall e | e in Tables(disk', outputs) ensures e in Contents(disk', v') {
      var o :| o in outputs && e in Table(disk', o);
      InContents(disk', v', c.level + 1, o, e);
    }
  }

  lemma InputsAndLeft(disk: Disk, v: Version, c: CompactionInputs)
    requires Chosen(v, c)
    ensures Contents(disk, v) == LeftEntries(disk, v, c) + InputEntries(disk, c)
  {
    forall e | e in InputEntries(disk, c) ensures e in Contents(disk, v) {
      var l, f := InputFile(disk, c, e);
      InContents(disk, v, l, f, e);
    }
    forall e | e in Contents(disk, v) ensures e in LeftEntries(disk, v, c) + InputEntries(disk, c) {
      var m, h := FileOf(disk, v, e);
      assert Left(v, c, m, h) || Input(c, m, h);
    }
    forall e | e in LeftEntries(disk, v, c) ensures e in Contents(disk, v) {
      var m, h := LeftFileOf(disk, v, c, e);
      InContents(disk, v, m, h, e);
    }
  }

  /** The stored files of the new version, given the old one. */
  lemma ReplacedStored(disk: Disk, disk': Disk, v: Version, c: CompactionInputs, outputs: seq<FileMeta>, v': Version)
    requires c.level + 1 < NUM_LEVELS && Separated(disk, v, c)
    requires GoodOutputs(disk, disk', v, c, outputs) && Replaced(v, c, outputs, v')
    ensures forall l :: 0 <= l < NUM_LEVELS ==> AllStored(disk', v'[l]) && SortedFiles(v'[l])
    ensures Contents(disk', v') == LeftEntries(disk, v, c) + Tables(disk', outputs)
    ensures Tables(disk', outputs) <= InputEntries(disk, c)
  {
    forall m: nat, h | Left(v, c, m, h) ensures h.number in disk && Stored(disk', h) {
      assert Stands(disk, c, m, h);
    }
    ReplacedContents(disk, disk', v, c, outputs, v');
  }

  /** A compaction or trivial move keeps the whole tree invariant. */
  lemma ReplacingKeepsTree(disk: Disk, disk': Disk, v: Version, c: CompactionInputs, outputs: seq<FileMeta>, v': Version)
    requires SortedTree(disk, v) && Chosen(v, c) && GoodOutputs(disk, disk', v, c, outputs) && Replaced(v, c, outputs, v')
    ensures SortedTree(disk', v')
    ensures Contents(disk', v') == LeftEntries(disk, v, c) + Tables(disk', outputs)
    ensures Contents(disk, v) == LeftEntries(disk, v, c) + InputEntries(disk, c)
  {
    PairsOfTree(disk, v);
    ChosenIsSeparated(disk, v, c);
    InputsAndLeft(disk, v, c);
    SeparatedKeepsTree(disk, disk', v, c, outputs, v');
  }

  lemma SeparatedKeepsTree(disk: Disk, disk': Disk, v: Version, c: CompactionInputs, outputs: seq<FileMeta>, v': Version)
    requires c.level + 1 < NUM_LEVELS && PairwiseFits(disk, v) && Separated(disk, v, c)
    requires GoodOutputs(disk, disk', v, c, outputs) && Replaced(v, c, outputs, v')
    requires Distinct(LeftEntries(disk, v, c) + InputEntries(disk, c))
    ensures SortedTree(disk', v')
    ensures Contents(disk', v') == LeftEntries(disk, v, c) + Tables(disk', outputs)
  {
    ReplacedPairs(disk, disk', v, c, outputs, v');
    ReplacedStored(disk, disk', v, c, outputs, v');
    TreeOfPairs(disk', v');
  }

  lemma MovedFileIsGoodOutput(disk: Disk, v: Version, c: CompactionInputs)
    requires Tree(disk, v) && Chosen(v, c) && |c.inputs0| == 1
    ensures GoodOutputs(disk, disk, v, c, c.inputs0)
  {
    var f := c.inputs0[0];
    assert f in c.inputs0 && Placed(v, c.level, f);
    forall m: nat, h | Left(v, c, m, h) ensures f.number != h.number {
      PairOfTree(disk, v, c.level, f, m, h);
    }
  }

  /** BackgroundCompaction's trivial move: one file goes down unchanged, and the contents stay. */
  lemma TrivialMoveKeepsTree(disk: Disk, v: Version, c: CompactionInputs, v': Version)
    requires SortedTree(disk, v) && Chosen(v, c) && |c.inputs0| == 1 && c.inputs1 == []
    requires Replaced(v, c, c.inputs0, v')
    ensures SortedTree(disk, v') && Contents(disk, v') == Contents(disk, v)
  {
    MovedFileIsGoodOutput(disk, v, c);
    ReplacingKeepsTree(disk, disk, v, c, c.inputs0, v');
  }

  // ----- flush -----

  /** The version after `f` is added at `level`. */
  ghost predicate Inserted(v: Version, level: nat, f: FileMeta, v': Version) {
    forall m :: 0 <= m < NUM_LEVELS ==>
      SortedFiles(v'[m]) && forall h :: h in v'[m] <==> Placed(v, m, h) || (m == level && h == f)
  }

  /** A table holding only newer entries, placed where nothing on its level or above meets it. */
  lemma FlushedAgainst(disk: Disk, level: nat, f: FileMeta, m: nat, h: FileMeta)
    requires Stored(disk, f) && Stored(disk, h) && f.number > h.number && Newer(Table(disk, f), Table(disk, h))
    requires m <= level && level > 0 ==> !Overlaps(h, Some(f.smallest.user), Some(f.largest.user))
    ensures Fits(disk, level, f, m, h) && Fits(disk, m, h, level, f)
  {
    if m <= level && level > 0 {
      StoredOrdered(disk, f);
      StoredOrdered(disk, h);
      forall a, b | a in Table(disk, f) && b in Table(disk, h) ensures a.key.user != b.key.user {
        WithinFile(disk, f, a);
        WithinFile(disk, h, b);
      }
    }
  }

  lemma FlushedPairs(disk: Disk, disk': Disk, v: Version, level: nat, f: FileMeta, v': Version)
    requires Tree(disk, v) && Extends(disk, disk') && Stored(disk', f) && level < NUM_LEVELS && Inserted(v, level, f, v')
    requires forall m: nat, h :: Placed(v, m, h) ==> h.number < f.number && Newer(Table(disk', f), Table(disk, h))
    requires level > 0 ==> ClearDownTo(v, level, f.smallest.user, f.largest.user)
    ensures PairwiseFits(disk', v')
    ensures forall l :: 0 <= l < NUM_LEVELS ==> AllStored(disk', v'[l])
  {
    forall m: nat, h | Placed(v, m, h)
      ensures Stored(disk', h) && f.number > h.number && Fits(disk', level, f, m, h) && Fits(disk', m, h, level, f)
    {
      assert Stored(disk, h) && Table(disk', h) == Table(disk, h);
      FlushedAgainst(disk', level, f, m, h);
    }
    forall l: nat, a, m: nat, b | Placed(v, l, a) && Placed(v, m, b) && (l != m || a != b)
      ensures a.number != b.number && Fits(disk', l, a, m, b)
    {
      PairOfTree(disk, v, l, a, m, b);
      LeftAgainstLeft(disk, disk', l, a, m, b);
    }
  }

  lemma InsertedContents(disk: Disk, disk': Disk, v: Version, level: nat, f: FileMeta, v': Version)
    requires Extends(disk, disk') && level < NUM_LEVELS && Inserted(v, level, f, v')
    requires forall m: nat, h :: Placed(v, m, h) ==> h.number in disk
    ensures Contents(disk', v') == Contents(disk, v) + Table(disk', f)
  {
    forall e | e in Contents(disk', v') ensures e in Contents(disk, v) + Table(disk', f) {
      var m, h := FileOf(disk', v', e);
      if Placed(v, m, h) {
        InContents(disk, v, m, h, e);
      }
    }
    forall e | e in Contents(disk, v) ensures e in Contents(disk', v') {
      var m, h := FileOf(disk, v, e);
      InContents(disk', v', m, h, e);
    }
    forall e | e in Table(disk', f) ensures e in Contents(disk', v') {
      InContents(disk', v', level, f, e);
    }
  }

  /** CompactMemTable with WriteLevel0Table: the new table keeps the tree and adds its entries. */
  lemma FlushKeepsTree(disk: Disk, disk': Disk, v: Version, level: nat, f: FileMeta, v': Version)
    requires Tree(disk, v) && Extends(disk, disk') && Stored(disk', f) && level < NUM_LEVELS && Inserted(v, level, f, v')
    requires forall m: nat, h :: Placed(v, m, h) ==> h.number < f.number
    requires Newer(Table(disk', f), Contents(disk, v)) && Distinct(Contents(disk, v) + Table(disk', f))
    requires level > 0 ==> ClearDownTo(v, level, f.smallest.user, f.largest.user)
    ensures SortedTree(disk', v')
    ensures Contents(disk', v') == Contents(disk, v) + Table(disk', f)
  {
    forall m: nat, h | Placed(v, m, h) ensures Newer(Table(disk', f), Table(disk, h)) && h.number in disk {
      assert forall e :: e in Table(disk, h) ==> e in Tables(disk, v[m]);
      assert Table(disk, h) <= Contents(disk, v);
    }
    FlushedPairs(disk, disk', v, level, f, v');
    InsertedContents(disk, disk', v, level, f, v');
    TreeOfPairs(disk', v');
  }
}
