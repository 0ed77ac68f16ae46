/**
 Versions: seven lists of table files over a disk of sorted runs, the tree
 invariant, and the level-by-level search (version_set.cc, db_impl.cc).
 */
module Versions {
  import opened InternalKeys

  const NUM_LEVELS: nat := 7

  datatype FileMeta = FileMeta(number: nat, size: nat, smallest: InternalKey, largest: InternalKey)

  /** The table files by number; a table is the sorted run of entries it serves. */
  type Disk = map<nat, seq<Entry>>

  type Version = v: seq<seq<FileMeta>> | |v| == NUM_LEVELS witness [[], [], [], [], [], [], []]

  /** The table exists, is a non-empty sorted run, and the metadata gives its end keys. */
  ghost predicate Stored(disk: Disk, f: FileMeta) {
    && f.number in disk
    && |disk[f.number]| > 0
    && Sorted(disk[f.number])
    && f.smallest == disk[f.number][0].key
    && f.largest == disk[f.number][|disk[f.number]| - 1].key
  }

  ghost function Table(disk: Disk, f: FileMeta): set<Entry> {
    if f.number in disk then Elements(disk[f.number]) else {}
  }

  ghost function Tables(disk: Disk, files: seq<FileMeta>): set<Entry> {
    set f, e | f in files && e in Table(disk, f) :: e
  }

  ghost function Contents(disk: Disk, v: Version): set<Entry> {
    set l, e | 0 <= l < NUM_LEVELS && e in Tables(disk, v[l]) :: e
  }

  /** Files in sorted order with ranges that do not meet, in internal-key order. */
  predicate Disjoint(files: seq<FileMeta>) {
    forall i, j :: 0 <= i < j < |files| ==> Before(files[i].largest, files[j].smallest)
  }

  /** Metadata that a table builder can have written: the end keys are in order. */
  predicate Ordered(files: seq<FileMeta>) {
    forall f :: f in files ==> !Before(f.largest, f.smallest)
  }

  ghost predicate AllStored(disk: Disk, files: seq<FileMeta>) {
    forall f :: f in files ==> Stored(disk, f)
  }

  /** For each user key a higher-numbered level-0 file holds only newer versions. */
  ghost predicate Level0Recency(disk: Disk, files: seq<FileMeta>) {
    forall f, g :: f in files && g in files && f.number > g.number ==> Newer(Table(disk, f), Table(disk, g))
  }

  /** For each user key a shallower level holds only newer versions than a deeper one. */
  ghost predicate LevelRecency(disk: Disk, v: Version) {
    forall l, m :: 0 <= l < m < NUM_LEVELS ==> Newer(Tables(disk, v[l]), Tables(disk, v[m]))
  }

  ghost predicate Numbered(v: Version) {
    forall l, m, i, j | 0 <= l < NUM_LEVELS && 0 <= m < NUM_LEVELS && 0 <= i < |v[l]| && 0 <= j < |v[m]| ::
      v[l][i].number == v[m][j].number ==> l == m && i == j
  }

  ghost predicate Tree(disk: Disk, v: Version) {
    && (forall l :: 0 <= l < NUM_LEVELS ==> AllStored(disk, v[l]))
    && (forall l :: 0 < l < NUM_LEVELS ==> Disjoint(v[l]))
    && Numbered(v)
    && Level0Recency(disk, v[0])
    && LevelRecency(disk, v)
    && Distinct(Contents(disk, v))
  }

  // ----- searching -----

  /** Binary search for the first file whose largest key is at or after `key`. */
  method FindFile(files: seq<FileMeta>, key: InternalKey) returns (index: nat)
    requires forall i, j :: 0 <= i < j < |files| ==> Before(files[i].largest, files[j].largest)
    ensures index <= |files|
    ensures forall i :: 0 <= i < index ==> Before(files[i].largest, key)
    ensures forall i :: index <= i < |files| ==> !Before(files[i].largest, key)
  {
    var left, right := 0, |files|;
    while left < right
      invariant 0 <= left <= right <= |files|
      invariant forall i :: 0 <= i < left ==> Before(files[i].largest, key)
      invariant forall i :: right <= i < |files| ==> !Before(files[i].largest, key)
    {
      var mid := (left + right) / 2;
      if Before(files[mid].largest, key) {
        left := mid + 1;
      } else {
        right := mid;
      }
    }
    index := right;
  }

  lemma RunEnds(run: seq<Entry>, i: nat)
    requires Sorted(run) && i < |run|
    ensures !Before(run[i].key, run[0].key)
    ensures !Before(run[|run| - 1].key, run[i].key)
  {
  }

  lemma LargestSorted(disk: Disk, files: seq<FileMeta>)
    requires AllStored(disk, files) && Disjoint(files)
    ensures forall i, j :: 0 <= i < j < |files| ==> Before(files[i].largest, files[j].largest)
  {
    forall i, j | 0 <= i < j < |files| ensures Before(files[i].largest, files[j].largest) {
      assert files[j] in files;
      RunEnds(disk[files[j].number], 0);
    }
  }

  /** An entry of a table lies between the table's end keys. */
  lemma WithinFile(disk: Disk, f: FileMeta, e: Entry)
    requires Stored(disk, f) && e in Table(disk, f)
    ensures !Before(e.key, f.smallest) && !Before(f.largest, e.key)
    ensures f.smallest.user <= e.key.user <= f.largest.user
  {
    var run := disk[f.number];
    var i :| 0 <= i < |run| && run[i] == e;
    RunEnds(run, i);
  }

  /** One sorted, disjoint level: binary search, then a single table. */
  method SearchSorted(disk: Disk, files: seq<FileMeta>, user: UserKey, snapshot: nat) returns (found: Option<Entry>)
    requires AllStored(disk, files) && Disjoint(files)
    ensures IsNewest(Tables(disk, files), user, snapshot, found)
  {
    LargestSorted(disk, files);
    var target := LookupKey(user, snapshot);
    var index := FindFile(files, target);
    forall i | index < i < |files| ensures !Before(files[i].smallest, target) {
      assert files[i] in files && Before(files[index].largest, files[i].smallest);
    }
    if index >= |files| || user < files[index].smallest.user {
      found := None;
      SkipBeside(disk, files, user, snapshot, index);
    } else {
      assert files[index] in files;
      found := SearchRun(disk[files[index].number], user, snapshot);
      SearchRunIsNewest(disk[files[index].number], user, snapshot);
      HitInOneFile(disk, files, user, snapshot, index, found);
    }
  }

  /** Which file of a disjoint level a candidate can be in, given the binary search result. */
  lemma CandidateFile(disk: Disk, files: seq<FileMeta>, user: UserKey, snapshot: nat, index: nat, x: Entry)
    returns (i: nat)
    requires AllStored(disk, files) && Disjoint(files) && index <= |files|
    requires forall i :: 0 <= i < index ==> Before(files[i].largest, LookupKey(user, snapshot))
    requires x in Tables(disk, files) && Candidate(x, user, snapshot)
    ensures index <= i < |files| && x in Table(disk, files[i]) && files[i].smallest.user <= user
    ensures i > index ==> files[index].smallest.user <= user
  {
    var f :| f in files && x in Table(disk, f);
    i :| 0 <= i < |files| && files[i] == f;
    WithinFile(disk, f, x);
    if i > index {
      assert files[index] in files && Before(files[index].largest, files[i].smallest);
      RunEnds(disk[files[index].number], 0);
    }
  }

  lemma SkipBeside(disk: Disk, files: seq<FileMeta>, user: UserKey, snapshot: nat, index: nat)
    requires AllStored(disk, files) && Disjoint(files) && index <= |files|
    requires forall i :: 0 <= i < index ==> Before(files[i].largest, LookupKey(user, snapshot))
    requires index < |files| ==> user < files[index].smallest.user
    ensures IsNewest(Tables(disk, files), user, snapshot, None)
  {
    forall x | x in Tables(disk, files) ensures !Candidate(x, user, snapshot) {
      if Candidate(x, user, snapshot) {
        var i := CandidateFile(disk, files, user, snapshot, index, x);
      }
    }
  }

  lemma HitInOneFile(disk: Disk, files: seq<FileMeta>, user: UserKey, snapshot: nat, index: nat, found: Option<Entry>)
    requires AllStored(disk, files) && Disjoint(files) && index < |files|
    requires forall i :: 0 <= i < index ==> Before(files[i].largest, LookupKey(user, snapshot))
    requires !Before(files[index].largest, LookupKey(user, snapshot))
    requires files[index].smallest.user <= user
    requires IsNewest(Table(disk, files[index]), user, snapshot, found)
    ensures IsNewest(Tables(disk, files), user, snapshot, found)
  {
    var f := files[index];
    assert f in files;
    assert Table(disk, f) <= Tables(disk, files);
    forall x | x in Tables(disk, files) && Candidate(x, user, snapshot)
      ensures found.Some? && x.key.seqno <= found.value.key.seqno
    {
      var i := CandidateFile(disk, files, user, snapshot, index, x);
      if i > index {
        // the straddling case: the last entry of `f` is itself a newer candidate
        var run := disk[f.number];
        var last := run[|run| - 1];
        assert files[i] in files;
        WithinFile(disk, files[i], x);
        assert Before(last.key, x.key);
        assert last in Table(disk, f) && last.key.user == user;
        assert last.key.seqno <= snapshot && x.key.seqno <= last.key.seqno;
      }
    }
  }

  /** std::sort with NewestFirst, as insertion. */
  function InsertNewestFirst(f: FileMeta, files: seq<FileMeta>): (r: seq<FileMeta>)
    ensures forall g :: g in r <==> g == f || g in files
    ensures NewestFirst(files) ==> NewestFirst(r)
  {
    if files == [] || f.number >= files[0].number then [f] + files
    else
      assert files == [files[0]] + files[1..];
      var rest := InsertNewestFirst(f, files[1..]);
      assert forall j :: 0 <= j < |rest| ==> rest[j] in rest;
      [files[0]] + rest
  }

  predicate NewestFirst(files: seq<FileMeta>) {
    forall i, j :: 0 <= i < j < |files| ==> files[i].number >= files[j].number
  }

  /** Level 0: every file whose user range covers the key, newest first. */
  method SearchLevel0(disk: Disk, files: seq<FileMeta>, user: UserKey, snapshot: nat) returns (found: Option<Entry>)
    requires AllStored(disk, files) && Level0Recency(disk, files)
    requires forall f, g :: f in files && g in files && f.number == g.number ==> f == g
    ensures IsNewest(Tables(disk, files), user, snapshot, found)
  {
    var tmp: seq<FileMeta> := [];
    for i := 0 to |files|
      invariant NewestFirst(tmp)
      invariant forall f :: f in tmp ==> f in files[..i]
      invariant forall f :: f in files[..i] && f.smallest.user <= user <= f.largest.user ==> f in tmp
    {
      var f := files[i];
      if f.smallest.user <= user <= f.largest.user {
        tmp := InsertNewestFirst(f, tmp);
      }
      assert files[..i + 1] == files[..i] + [f];
    }
    assert files[..|files|] == files;
    forall f, x | f in files && x in Table(disk, f) && Candidate(x, user, snapshot) ensures f in tmp {
      WithinFile(disk, f, x);
    }
    for i := 0 to |tmp|
      invariant forall f, x :: f in tmp[..i] && x in Table(disk, f) ==> !Candidate(x, user, snapshot)
    {
      var f := tmp[i];
      assert f in files;
      found := SearchRun(disk[f.number], user, snapshot);
      SearchRunIsNewest(disk[f.number], user, snapshot);
      if found.Some? {
        assert found.value in Table(disk, f);
        forall x | x in Tables(disk, files) && Candidate(x, user, snapshot)
          ensures x.key.seqno <= found.value.key.seqno
        {
          var g :| g in files && x in Table(disk, g);
          assert g in tmp && g !in tmp[..i];
          var j :| 0 <= j < |tmp| && tmp[j] == g;
          if g.number < f.number {
            assert Newer(Table(disk, f), Table(disk, g));
          }
        }
        return;
      }
      assert tmp[..i + 1] == tmp[..i] + [f];
    }
    assert tmp[..|tmp|] == tmp;
    found := None;
  }

  /** The entries of the levels from `l` down. */
  ghost function ContentsFrom(disk: Disk, v: Version, l: nat): set<Entry> {
    set m, e | l <= m < NUM_LEVELS && e in Tables(disk, v[m]) :: e
  }

  /** Version::Get: level by level, stopping at the first hit. */
  method Get(disk: Disk, v: Version, user: UserKey, snapshot: nat) returns (found: Option<Entry>)
    requires Tree(disk, v)
    ensures IsNewest(Contents(disk, v), user, snapshot, found)
  {
    var level := 0;
    assert ContentsFrom(disk, v, 0) == Contents(disk, v);
    found := None;
    while level < NUM_LEVELS
      invariant 0 <= level <= NUM_LEVELS
      invariant forall r :: IsNewest(ContentsFrom(disk, v, level), user, snapshot, r) ==>
                              IsNewest(Contents(disk, v), user, snapshot, r)
    {
      if level == 0 {
        found := SearchLevel0(disk, v[0], user, snapshot);
      } else {
        found := SearchSorted(disk, v[level], user, snapshot);
      }
      LevelStep(disk, v, level, user, snapshot, found);
      if found.Some? {
        return;
      }
      level := level + 1;
    }
    found := None;
    assert IsNewest(ContentsFrom(disk, v, level), user, snapshot, found);
  }

  lemma LevelStep(disk: Disk, v: Version, level: nat, user: UserKey, snapshot: nat, found: Option<Entry>)
    requires level < NUM_LEVELS && LevelRecency(disk, v)
    requires IsNewest(Tables(disk, v[level]), user, snapshot, found)
    ensures found.Some? ==> IsNewest(ContentsFrom(disk, v, level), user, snapshot, found)
    ensures found.None? ==> forall r :: IsNewest(ContentsFrom(disk, v, level + 1), user, snapshot, r) ==>
                                          IsNewest(ContentsFrom(disk, v, level), user, snapshot, r)
  {
    var upper, lower := Tables(disk, v[level]), ContentsFrom(disk, v, level + 1);
    assert ContentsFrom(disk, v, level) == upper + lower;
    assert Newer(upper, lower);
    if found.Some? {
      NewestLayered(upper, lower, user, snapshot, found, None);
    }
  }
}
