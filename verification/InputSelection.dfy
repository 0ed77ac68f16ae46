/**
 Choosing the files of a compaction: GetOverlappingInputs with its level-0
 restarts, AddBoundaryInputs, SetupOtherInputs and CompactRange (version_set.cc).
 */
module InputSelection {
  import opened InternalKeys
  import opened Versions

  /** The file's user range meets [begin, end]; an absent bound is unbounded. */
  predicate Overlaps(f: FileMeta, begin: Option<UserKey>, end: Option<UserKey>) {
    && (begin.Some? ==> begin.value <= f.largest.user)
    && (end.Some? ==> f.smallest.user <= end.value)
  }

  predicate Inside(f: FileMeta, begin: Option<UserKey>, end: Option<UserKey>) {
    && (begin.Some? ==> begin.value <= f.smallest.user)
    && (end.Some? ==> f.largest.user <= end.value)
  }

  predicate Meet(f: FileMeta, g: FileMeta) {
    f.smallest.user <= g.largest.user && g.smallest.user <= f.largest.user
  }

  /** The overlapping files, in list order. */
  function Select(files: seq<FileMeta>, begin: Option<UserKey>, end: Option<UserKey>): (r: seq<FileMeta>)
    ensures forall f :: f in r <==> f in files && Overlaps(f, begin, end)
  {
    if files == [] then []
    else
      var n := |files| - 1;
      assert files == files[..n] + [files[n]];
      Select(files[..n], begin, end) + if Overlaps(files[n], begin, end) then [files[n]] else []
  }

  /** A set of the level's files that holds every file meeting the range and every file meeting a member. */
  ghost predicate OverlapClosed(files: seq<FileMeta>, begin: Option<UserKey>, end: Option<UserKey>, chosen: set<FileMeta>) {
    && (forall f :: f in chosen ==> f in files)
    && (forall f :: f in files && Overlaps(f, begin, end) ==> f in chosen)
    && (forall f, g :: f in files && g in chosen && Meet(f, g) ==> f in chosen)
  }

  ghost function StartsBelow(files: seq<FileMeta>, begin: Option<UserKey>): set<FileMeta> {
    set f | f in files && begin.Some? && f.smallest.user < begin.value
  }

  ghost function EndsAbove(files: seq<FileMeta>, end: Option<UserKey>): set<FileMeta> {
    set f | f in files && end.Some? && f.largest.user > end.value
  }

  function UserOf(key: Option<InternalKey>): Option<UserKey> {
    match key
    case None => None
    case Some(k) => Some(k.user)
  }

  /**
   Version::GetOverlappingInputs. Above level 0 it is a filter; at level 0 it
   restarts whenever a file widens the range and ends with the least
   overlap-closed set, in list order. `lo` and `hi` are the final range.
   */
  method GetOverlappingInputs(files: seq<FileMeta>, level: nat, begin: Option<InternalKey>, end: Option<InternalKey>)
    returns (inputs: seq<FileMeta>, ghost lo: Option<UserKey>, ghost hi: Option<UserKey>)
    requires Ordered(files)
    ensures inputs == Select(files, lo, hi)
    ensures level > 0 ==> lo == UserOf(begin) && hi == UserOf(end)
    ensures level == 0 ==> LeastOverlapClosed(files, UserOf(begin), UserOf(end), Elements(inputs))
  {
    inputs := [];
    var userBegin, userEnd := UserOf(begin), UserOf(end);
    var i := 0;
    while i < |files|
      invariant Scanned(files, level, UserOf(begin), UserOf(end), userBegin, userEnd, i, inputs)
      decreases StartsBelow(files, userBegin), EndsAbove(files, userEnd), |files| - i
    {
      var f := files[i];
      i := i + 1;
      ScanOne(files, level, UserOf(begin), UserOf(end), userBegin, userEnd, i - 1, inputs);
      if userBegin.Some? && f.largest.user < userBegin.value {
        // completely before the range
      } else if userEnd.Some? && f.smallest.user > userEnd.value {
        // completely after the range
      } else {
        inputs := inputs + [f];
        if level == 0 {
          if userBegin.Some? && f.smallest.user < userBegin.value {
            assert f in StartsBelow(files, userBegin) && f !in StartsBelow(files, Some(f.smallest.user));
            userBegin := Some(f.smallest.user);
            inputs, i := [], 0;
          } else if userEnd.Some? && f.largest.user > userEnd.value {
            assert f in EndsAbove(files, userEnd) && f !in EndsAbove(files, Some(f.largest.user));
            userEnd := Some(f.largest.user);
            inputs, i := [], 0;
          }
        }
      }
    }
    ScanDone(files, level, UserOf(begin), UserOf(end), userBegin, userEnd, i, inputs);
    lo, hi := userBegin, userEnd;
  }

  ghost predicate LeastOverlapClosed(files: seq<FileMeta>, begin: Option<UserKey>, end: Option<UserKey>, chosen: set<FileMeta>) {
    && OverlapClosed(files, begin, end, chosen)
    && forall c :: OverlapClosed(files, begin, end, c) ==> chosen <= c
  }

  /** The state of the scan before file `i`: the range so far, and the files before `i` that meet it. */
  ghost predicate Scanned(files: seq<FileMeta>, level: nat, begin: Option<UserKey>, end: Option<UserKey>,
                          lo: Option<UserKey>, hi: Option<UserKey>, i: nat, inputs: seq<FileMeta>) {
    && i <= |files|
    && inputs == Select(files[..i], lo, hi)
    && (lo.Some? == begin.Some? && hi.Some? == end.Some?)
    && (begin.Some? ==> lo.value <= begin.value)
    && (end.Some? ==> end.value <= hi.value)
    && (level > 0 ==> lo == begin && hi == end)
    && (level == 0 ==> Needed(files, begin, end, lo, hi) && forall f :: f in inputs ==> Inside(f, lo, hi))
  }

  lemma ScanOne(files: seq<FileMeta>, level: nat, begin: Option<UserKey>, end: Option<UserKey>,
                lo: Option<UserKey>, hi: Option<UserKey>, i: nat, inputs: seq<FileMeta>)
    requires Ordered(files) && i < |files| && Scanned(files, level, begin, end, lo, hi, i, inputs)
    ensures !Overlaps(files[i], lo, hi) ==> Scanned(files, level, begin, end, lo, hi, i + 1, inputs)
    ensures Overlaps(files[i], lo, hi) && (level > 0 || Inside(files[i], lo, hi)) ==>
              Scanned(files, level, begin, end, lo, hi, i + 1, inputs + [files[i]])
    ensures level == 0 && Overlaps(files[i], lo, hi) && lo.Some? && files[i].smallest.user < lo.value ==>
              Scanned(files, level, begin, end, Some(files[i].smallest.user), hi, 0, [])
    ensures level == 0 && Overlaps(files[i], lo, hi) && hi.Some? && files[i].largest.user > hi.value ==>
              Scanned(files, level, begin, end, lo, Some(files[i].largest.user), 0, [])
  {
    assert files[..i + 1][..i] == files[..i];
    if level == 0 && Overlaps(files[i], lo, hi) {
      Widen(files, begin, end, lo, hi, files[i]);
    }
  }

  lemma ScanDone(files: seq<FileMeta>, level: nat, begin: Option<UserKey>, end: Option<UserKey>,
                 lo: Option<UserKey>, hi: Option<UserKey>, i: nat, inputs: seq<FileMeta>)
    requires i == |files| && Scanned(files, level, begin, end, lo, hi, i, inputs)
    ensures inputs == Select(files, lo, hi)
    ensures level == 0 ==> LeastOverlapClosed(files, begin, end, Elements(inputs))
  {
    assert files[..i] == files;
    if level == 0 {
      forall f, g | f in files && g in inputs && Meet(f, g) ensures f in inputs {
        assert Inside(g, lo, hi) && Overlaps(f, lo, hi);
      }
    }
  }

  /** Every overlap-closed set must hold all files that meet [lo, hi]. */
  ghost predicate Needed(files: seq<FileMeta>, begin: Option<UserKey>, end: Option<UserKey>, lo: Option<UserKey>, hi: Option<UserKey>) {
    forall c, f | OverlapClosed(files, begin, end, c) && f in files && Overlaps(f, lo, hi) :: f in c
  }

  /** Widening the range to a file that meets it adds only files every closed set must hold. */
  lemma Widen(files: seq<FileMeta>, begin: Option<UserKey>, end: Option<UserKey>,
              lo: Option<UserKey>, hi: Option<UserKey>, f: FileMeta)
    requires Ordered(files) && f in files && Overlaps(f, lo, hi)
    requires Needed(files, begin, end, lo, hi)
    ensures lo.Some? && f.smallest.user < lo.value ==> Needed(files, begin, end, Some(f.smallest.user), hi)
    ensures hi.Some? && f.largest.user > hi.value ==> Needed(files, begin, end, lo, Some(f.largest.user))
  {
    forall c, g | OverlapClosed(files, begin, end, c) && g in files
      ensures lo.Some? && f.smallest.user < lo.value && Overlaps(g, Some(f.smallest.user), hi) ==> g in c
      ensures hi.Some? && f.largest.user > hi.value && Overlaps(g, lo, Some(f.largest.user)) ==> g in c
    {
      assert f in c && (Overlaps(g, lo, hi) ==> g in c) && (Meet(g, f) ==> g in c);
    }
  }

  // ----- boundary files -----

  /** GetRange: the least and greatest internal keys of a non-empty file list. */
  function Smallest(files: seq<FileMeta>): (k: InternalKey)
    requires files != []
    ensures exists f :: f in files && f.smallest == k
    ensures forall f :: f in files ==> !Before(f.smallest, k)
  {
    var n := |files| - 1;
    assert files == files[..n] + [files[n]];
    if n == 0 then files[0].smallest
    else
      var k := Smallest(files[..n]);
      if Before(files[n].smallest, k) then files[n].smallest else k
  }

  function Largest(files: seq<FileMeta>): (k: InternalKey)
    requires files != []
    ensures exists f :: f in files && f.largest == k
    ensures forall f :: f in files ==> !Before(k, f.largest)
  {
    var n := |files| - 1;
    assert files == files[..n] + [files[n]];
    if n == 0 then files[0].largest
    else
      var k := Largest(files[..n]);
      if Before(k, files[n].largest) then files[n].largest else k
  }

  /** The file starts after `largest` but with the same user key. */
  predicate Continues(f: FileMeta, largest: InternalKey) {
    Before(largest, f.smallest) && f.smallest.user == largest.user
  }

  ghost predicate FirstContinuing(files: seq<FileMeta>, largest: InternalKey, f: FileMeta) {
    && f in files && Continues(f, largest)
    && forall g :: g in files && Continues(g, largest) ==> !Before(g.smallest, f.smallest)
  }

  method FindSmallestBoundaryFile(files: seq<FileMeta>, largest: InternalKey) returns (found: Option<FileMeta>)
    ensures found.Some? ==> FirstContinuing(files, largest, found.value)
    ensures found.None? ==> forall f :: f in files ==> !Continues(f, largest)
  {
    found := None;
    for i := 0 to |files|
      invariant found.Some? ==> FirstContinuing(files[..i], largest, found.value)
      invariant found.None? ==> forall f :: f in files[..i] ==> !Continues(f, largest)
    {
      var f := files[i];
      if Continues(f, largest) && (found.None? || Before(f.smallest, found.value.smallest)) {
        found := Some(f);
      }
      assert files[..i + 1] == files[..i] + [f];
    }
    assert files[..|files|] == files;
  }

  ghost function StartsAfter(files: seq<FileMeta>, key: InternalKey): set<FileMeta> {
    set f | f in files && Before(key, f.smallest)
  }

  /** The greatest key when the first `i` files of `r` had been chosen. */
  ghost function KeyAt(base: seq<FileMeta>, r: seq<FileMeta>, i: nat): InternalKey
    requires 0 < |base| <= i <= |r|
  {
    if i == |base| then Largest(base) else r[i - 1].largest
  }

  ghost predicate Link(files: seq<FileMeta>, base: seq<FileMeta>, r: seq<FileMeta>, i: nat)
    requires 0 < |base| <= i < |r|
  {
    FirstContinuing(files, KeyAt(base, r, i), r[i])
  }

  /** Each added file is the first one to continue the greatest key chosen before it. */
  ghost predicate BoundaryChain(files: seq<FileMeta>, base: seq<FileMeta>, r: seq<FileMeta>) {
    && base <= r
    && (base == [] ==> r == [])
    && forall i :: 0 < |base| <= i < |r| ==> Link(files, base, r, i)
  }

  /** AddBoundaryInputs: extend `base` until no file of the level continues its greatest user key. */
  method AddBoundaryInputs(files: seq<FileMeta>, base: seq<FileMeta>) returns (r: seq<FileMeta>)
    requires Ordered(files)
    ensures BoundaryChain(files, base, r)
    ensures r != [] ==> forall f :: f in files ==> !Continues(f, Largest(r))
  {
    r := base;
    if base == [] {
      return;
    }
    var largest := Largest(base);
    var searching := true;
    while searching
      invariant BoundaryChain(files, base, r) && largest == KeyAt(base, r, |r|)
      invariant !searching ==> forall f :: f in files ==> !Continues(f, largest)
      decreases StartsAfter(files, largest), searching
    {
      var boundary := FindSmallestBoundaryFile(files, largest);
      if boundary.Some? {
        ExtendChain(files, base, r, boundary.value);
        r := r + [boundary.value];
        largest := boundary.value.largest;
      } else {
        searching := false;
      }
    }
    ChainLargest(files, base, r);
  }

  lemma ExtendChain(files: seq<FileMeta>, base: seq<FileMeta>, r: seq<FileMeta>, f: FileMeta)
    requires Ordered(files) && base != [] && BoundaryChain(files, base, r) && FirstContinuing(files, KeyAt(base, r, |r|), f)
    ensures BoundaryChain(files, base, r + [f]) && KeyAt(base, r + [f], |r| + 1) == f.largest
    ensures StartsAfter(files, f.largest) < StartsAfter(files, KeyAt(base, r, |r|))
  {
    forall i | |base| <= i < |r| + 1 ensures Link(files, base, r + [f], i) {
      assert i < |r| ==> Link(files, base, r, i);
    }
    assert f in StartsAfter(files, KeyAt(base, r, |r|)) && f !in StartsAfter(files, f.largest);
  }

  /** The key at `i` bounds every file chosen before; so no file is chosen twice. */
  lemma {:induction false} ChainRises(files: seq<FileMeta>, base: seq<FileMeta>, r: seq<FileMeta>, i: nat, j: nat)
    requires Ordered(files) && 0 < |base| <= j <= |r| && BoundaryChain(files, base, r) && i < j
    ensures !Before(KeyAt(base, r, j), r[i].largest)
    ensures j < |r| ==> Before(r[i].largest, r[j].smallest) && r[i] != r[j]
    decreases j
  {
    if j == |base| {
      assert r[i] in base;
    } else {
      assert Link(files, base, r, j - 1);
      if i < j - 1 {
        ChainRises(files, base, r, i, j - 1);
      }
    }
    assert j < |r| ==> Link(files, base, r, j);
  }

  lemma ChainLargest(files: seq<FileMeta>, base: seq<FileMeta>, r: seq<FileMeta>)
    requires Ordered(files) && base != [] && BoundaryChain(files, base, r)
    ensures Largest(r) == KeyAt(base, r, |r|)
  {
    forall f | f in r ensures !Before(KeyAt(base, r, |r|), f.largest) {
      var i :| 0 <= i < |r| && r[i] == f;
      ChainRises(files, base, r, i, |r|);
    }
    assert forall f :: f in base ==> f in r;
    assert |r| > |base| ==> r[|r| - 1] in r;
  }

  // ----- a whole compaction -----

  ghost predicate NoDuplicates(files: seq<FileMeta>) {
    forall i, j :: 0 <= i < j < |files| ==> files[i] != files[j]
  }

  /** A run of neighbouring files. */
  ghost predicate Neighbours(files: seq<FileMeta>, chosen: seq<FileMeta>, a: nat) {
    chosen != [] && a + |chosen| <= |files| && chosen == files[a..a + |chosen|]
  }

  /**
   What the files chosen from `level` must satisfy: at level 0 nothing left
   behind meets a chosen file; deeper, nothing left behind continues the last
   user key of a chosen file.
   */
  ghost predicate Closed(files: seq<FileMeta>, level: nat, chosen: seq<FileMeta>) {
    && chosen != [] && NoDuplicates(chosen)
    && (forall f :: f in chosen ==> f in files)
    && (level == 0 ==> forall f, g :: f in files && g in chosen && Meet(f, g) ==> f in chosen)
    && (level > 0 ==> forall f, g :: f in files && g in chosen && Continues(f, g.largest) ==> f in chosen)
  }

  /** The first choice made by PickCompaction or CompactRange, before boundary files. */
  ghost predicate Startable(files: seq<FileMeta>, level: nat, chosen: seq<FileMeta>) {
    if level == 0 then Closed(files, 0, chosen) else exists a :: Neighbours(files, chosen, a)
  }

  /** In a disjoint level the files that meet a range are neighbours. */
  lemma OverlapIsConvex(files: seq<FileMeta>, lo: Option<UserKey>, hi: Option<UserKey>, i: nat, j: nat, k: nat)
    requires Disjoint(files) && Ordered(files) && i < j < k < |files|
    ensures Overlaps(files[i], lo, hi) && Overlaps(files[k], lo, hi) ==> Overlaps(files[j], lo, hi)
  {
    assert files[j] in files;
    assert Before(files[i].largest, files[j].smallest) && Before(files[j].largest, files[k].smallest);
  }

  lemma SelectStep(files: seq<FileMeta>, lo: Option<UserKey>, hi: Option<UserKey>, n: nat)
    requires n < |files|
    ensures Select(files[..n + 1], lo, hi) == Select(files[..n], lo, hi) + if Overlaps(files[n], lo, hi) then [files[n]] else []
  {
    assert files[..n + 1][..n] == files[..n];
  }

  /** `chosen` is the run of files from `a` to `b`, and the last of the first `n` files that meet the range. */
  ghost predicate MeetingRun(files: seq<FileMeta>, lo: Option<UserKey>, hi: Option<UserKey>, n: nat,
                             chosen: seq<FileMeta>, a: nat, b: nat) {
    && a <= b <= n <= |files| && |chosen| == b - a
    && (forall m :: 0 <= m < |chosen| ==> chosen[m] == files[a + m])
    && (a < b ==> Overlaps(files[b - 1], lo, hi))
    && forall i :: b <= i < n ==> !Overlaps(files[i], lo, hi)
  }

  lemma MeetingRunStep(files: seq<FileMeta>, lo: Option<UserKey>, hi: Option<UserKey>, n: nat,
                       chosen: seq<FileMeta>, a: nat, b: nat) returns (a': nat, b': nat)
    requires Disjoint(files) && Ordered(files) && n < |files| && MeetingRun(files, lo, hi, n, chosen, a, b)
    ensures MeetingRun(files, lo, hi, n + 1, chosen + if Overlaps(files[n], lo, hi) then [files[n]] else [], a', b')
  {
    a', b' := a, b;
    if a < b < n {
      OverlapIsConvex(files, lo, hi, b - 1, b, n);
    }
    if Overlaps(files[n], lo, hi) {
      a', b' := if a < b then a else n, n + 1;
    }
  }

  lemma {:induction false} SelectIsRun(files: seq<FileMeta>, lo: Option<UserKey>, hi: Option<UserKey>, n: nat) returns (a: nat, b: nat)
    requires Disjoint(files) && Ordered(files) && n <= |files|
    ensures MeetingRun(files, lo, hi, n, Select(files[..n], lo, hi), a, b)
    decreases n
  {
    a, b := 0, 0;
    if n > 0 {
      a, b := SelectIsRun(files, lo, hi, n - 1);
      SelectStep(files, lo, hi, n - 1);
      a, b := MeetingRunStep(files, lo, hi, n - 1, Select(files[..n - 1], lo, hi), a, b);
    }
  }

  lemma SelectNeighbours(files: seq<FileMeta>, lo: Option<UserKey>, hi: Option<UserKey>, chosen: seq<FileMeta>) returns (a: nat)
    requires Disjoint(files) && Ordered(files) && chosen == Select(files, lo, hi) && chosen != []
    ensures Neighbours(files, chosen, a)
  {
    ghost var b;
    a, b := SelectIsRun(files, lo, hi, |files|);
    assert files[..|files|] == files;
  }

  lemma {:induction false} LargestOfNeighbours(files: seq<FileMeta>, a: nat, b: nat)
    requires Disjoint(files) && Ordered(files) && a < b <= |files|
    ensures Largest(files[a..b]) == files[b - 1].largest
  {
    var chosen := files[a..b];
    forall f | f in chosen ensures !Before(files[b - 1].largest, f.largest) {
      var i :| 0 <= i < |chosen| && chosen[i] == f;
      assert files[b - 1] in files && (i < b - a - 1 ==> Before(f.largest, files[b - 1].smallest));
    }
    assert files[b - 1] == chosen[b - a - 1];
  }

  lemma BaseIsPrefix(files: seq<FileMeta>, base: seq<FileMeta>, r: seq<FileMeta>, a: nat)
    requires Neighbours(files, base, a) && base <= r
    ensures forall m :: 0 <= m < |base| ==> r[m] == files[a + m]
  {
    forall m | 0 <= m < |base| ensures r[m] == files[a + m] {
      assert r[m] == base[m] == files[a..a + |base|][m];
    }
  }

  /** The first i chosen files are neighbours from a on. */
  ghost predicate NeighboursTo(files: seq<FileMeta>, base: seq<FileMeta>, r: seq<FileMeta>, a: nat, i: nat)
    requires 0 < |base| <= i <= |r|
  {
    && a + i <= |files| && KeyAt(base, r, i) == files[a + i - 1].largest
    && forall m :: 0 <= m < i ==> r[m] == files[a + m]
  }

  /** Boundary files extend a run of neighbours by the files that follow it. */
  lemma {:induction false} ChainStaysNeighbours(files: seq<FileMeta>, base: seq<FileMeta>, r: seq<FileMeta>, a: nat, i: nat)
    requires Disjoint(files) && Ordered(files) && Neighbours(files, base, a) && BoundaryChain(files, base, r)
    requires |base| <= i <= |r|
    ensures NeighboursTo(files, base, r, a, i)
    decreases i
  {
    if i > |base| {
      ChainStaysNeighbours(files, base, r, a, i - 1);
      NextLink(files, base, r, a, i - 1);
    } else {
      LargestOfNeighbours(files, a, a + |base|);
      BaseIsPrefix(files, base, r, a);
    }
  }

  lemma NextLink(files: seq<FileMeta>, base: seq<FileMeta>, r: seq<FileMeta>, a: nat, i: nat)
    requires Disjoint(files) && Ordered(files) && 0 < |base| <= i < |r| && BoundaryChain(files, base, r)
    requires NeighboursTo(files, base, r, a, i)
    ensures NeighboursTo(files, base, r, a, i + 1)
  {
    assert Link(files, base, r, i);
    NextContinues(files, a + i - 1, r[i]);
  }

  lemma NextContinues(files: seq<FileMeta>, last: nat, f: FileMeta)
    requires Disjoint(files) && Ordered(files) && last < |files| && FirstContinuing(files, files[last].largest, f)
    ensures last + 1 < |files| && files[last + 1] == f
  {
    var m :| 0 <= m < |files| && files[m] == f;
    assert files[last] in files && files[m] in files;
    assert m > last;
    assert files[last + 1] in files && Before(files[last].largest, files[last + 1].smallest);
    assert last + 1 < m ==> Before(files[last + 1].largest, files[m].smallest);
    assert last + 1 < m ==> Continues(files[last + 1], files[last].largest);
  }

  lemma ClosedAtLevel0(files: seq<FileMeta>, base: seq<FileMeta>, r: seq<FileMeta>)
    requires Ordered(files) && Closed(files, 0, base) && BoundaryChain(files, base, r)
    ensures r == base
  {
    if r != base {
      assert Link(files, base, r, |base|);
      var f := r[|base|];
      var g :| g in base && g.largest == Largest(base);
      assert Meet(f, g);
      var i :| 0 <= i < |base| && base[i] == f;
      assert base[i] == r[i];
      ChainRises(files, base, r, i, |base|);
      assert false;
    }
  }

  lemma ClosedAfterBoundary(files: seq<FileMeta>, level: nat, base: seq<FileMeta>, r: seq<FileMeta>)
    requires Ordered(files) && (level > 0 ==> Disjoint(files))
    requires Startable(files, level, base) && BoundaryChain(files, base, r)
    requires forall f :: f in files && r != [] ==> !Continues(f, Largest(r))
    ensures Closed(files, level, r)
  {
    if level == 0 {
      ClosedAtLevel0(files, base, r);
    } else {
      var a: nat :| Neighbours(files, base, a);
      ChainStaysNeighbours(files, base, r, a, |r|);
      ChainLargest(files, base, r);
      NeighboursClosed(files, level, r, a);
    }
  }

  lemma NeighboursClosed(files: seq<FileMeta>, level: nat, r: seq<FileMeta>, a: nat)
    requires Disjoint(files) && Ordered(files) && level > 0 && r != [] && a + |r| <= |files|
    requires forall m :: 0 <= m < |r| ==> r[m] == files[a + m]
    requires forall f :: f in files ==> !Continues(f, files[a + |r| - 1].largest)
    ensures Closed(files, level, r)
  {
    var b := a + |r|;
    forall f, g | f in files && g in r && Continues(f, g.largest) ensures f in r {
      var m :| 0 <= m < |files| && files[m] == f;
      var i :| 0 <= i < |r| && r[i] == g;
      assert files[b - 1] in files && g == files[a + i] && g in files;
      assert a + i < b - 1 ==> Before(files[a + i].largest, files[b - 1].smallest);
      assert a <= m < b;
      assert r[m - a] == f;
    }
    forall i, j | 0 <= i < j < |r| ensures r[i] != r[j] {
      assert files[a + j] in files && Before(files[a + i].largest, files[a + j].smallest);
    }
  }

  // ----- SetupOtherInputs, PickCompaction, CompactRange -----

  datatype CompactionInputs = CompactionInputs(level: nat, inputs0: seq<FileMeta>, inputs1: seq<FileMeta>,
                                               grandparents: seq<FileMeta>)

  ghost predicate Shaped(v: Version) {
    && (forall l :: 0 <= l < NUM_LEVELS ==> Ordered(v[l]))
    && (forall l :: 0 < l < NUM_LEVELS ==> Disjoint(v[l]))
    && NoDuplicates(v[0])
  }

  /** The files of `level + 1` that meet the user range of the files chosen from `level`. */
  function NextLevelInputs(v: Version, level: nat, inputs0: seq<FileMeta>): seq<FileMeta>
    requires level + 1 < NUM_LEVELS && inputs0 != []
  {
    Select(v[level + 1], Some(Smallest(inputs0).user), Some(Largest(inputs0).user))
  }

  /** What every compaction's inputs satisfy, expanded or not. */
  ghost predicate Chosen(v: Version, c: CompactionInputs) {
    && c.level + 1 < NUM_LEVELS
    && Closed(v[c.level], c.level, c.inputs0)
    && c.inputs1 == NextLevelInputs(v, c.level, c.inputs0)
  }

  function TotalFileSize(files: seq<FileMeta>): nat {
    if files == [] then 0 else TotalFileSize(files[..|files| - 1]) + files[|files| - 1].size
  }

  lemma SelectNoDuplicates(files: seq<FileMeta>, lo: Option<UserKey>, hi: Option<UserKey>)
    requires NoDuplicates(files)
    ensures NoDuplicates(Select(files, lo, hi))
  {
    if files != [] {
      var n := |files| - 1;
      var rest := Select(files[..n], lo, hi);
      SelectNoDuplicates(files[..n], lo, hi);
      assert forall i :: 0 <= i < |rest| ==> rest[i] in rest && rest[i] in files[..n];
    }
  }

  /** What GetOverlappingInputs returns for a range: a filter, or at level 0 the least closed set in list order. */
  ghost predicate Overlapping(v: Version, level: nat, begin: Option<UserKey>, end: Option<UserKey>, chosen: seq<FileMeta>)
    requires level < NUM_LEVELS
  {
    if level == 0 then
      LeastOverlapClosed(v[0], begin, end, Elements(chosen)) && exists lo, hi :: chosen == Select(v[0], lo, hi)
    else chosen == Select(v[level], begin, end)
  }

  /** GetOverlappingInputs on a level, as a first choice that boundary files may extend. */
  method ChooseOverlapping(v: Version, level: nat, begin: Option<InternalKey>, end: Option<InternalKey>)
    returns (chosen: seq<FileMeta>)
    requires Shaped(v) && level < NUM_LEVELS
    ensures forall f :: f in v[level] && Overlaps(f, UserOf(begin), UserOf(end)) ==> f in chosen
    ensures chosen != [] ==> Startable(v[level], level, chosen)
    ensures Overlapping(v, level, UserOf(begin), UserOf(end), chosen)
  {
    ghost var lo, hi;
    chosen, lo, hi := GetOverlappingInputs(v[level], level, begin, end);
    if level == 0 {
      SelectNoDuplicates(v[0], lo, hi);
      assert forall f :: f in chosen <==> f in Elements(chosen);
    } else if chosen != [] {
      ghost var a := SelectNeighbours(v[level], lo, hi, chosen);
      assert Neighbours(v[level], chosen, a);
    }
  }

  method CloseOverBoundary(v: Version, level: nat, start: seq<FileMeta>) returns (r: seq<FileMeta>)
    requires Shaped(v) && level < NUM_LEVELS && Startable(v[level], level, start)
    ensures Closed(v[level], level, r)
    ensures forall f :: f in start ==> f in r
    ensures forall f :: f in v[level] ==> !Continues(f, Largest(r))
    ensures BoundaryChain(v[level], start, r)
  {
    r := AddBoundaryInputs(v[level], start);
    assert start == r[..|start|];
    ClosedAfterBoundary(v[level], level, start, r);
  }

  /** Inputs of level `level` that contain `start` and are closed over files that continue their last user key. */
  ghost predicate Settled(files: seq<FileMeta>, level: nat, start: seq<FileMeta>, inputs0: seq<FileMeta>) {
    && Closed(files, level, inputs0) && (forall f :: f in start ==> f in inputs0)
    && forall f :: f in files ==> !Continues(f, Largest(inputs0))
  }

  /** The files of the next level in the inputs' range. */
  method OverlappingNext(v: Version, level: nat, inputs0: seq<FileMeta>) returns (inputs1: seq<FileMeta>)
    requires Shaped(v) && level + 1 < NUM_LEVELS && inputs0 != []
    ensures inputs1 == NextLevelInputs(v, level, inputs0)
  {
    var chosen, _, _ := GetOverlappingInputs(v[level + 1], level + 1, Some(Smallest(inputs0)), Some(Largest(inputs0)));
    inputs1 := chosen;
  }

  /** The level's files in the range of both levels' inputs, with the files that continue them. */
  ghost predicate Widened(v: Version, level: nat, all: seq<FileMeta>, expanded0: seq<FileMeta>)
    requires level < NUM_LEVELS && all != []
  {
    && (exists wide :: Overlapping(v, level, Some(Smallest(all).user), Some(Largest(all).user), wide)
                       && BoundaryChain(v[level], wide, expanded0))
    && expanded0 != [] && forall f :: f in v[level] ==> !Continues(f, Largest(expanded0))
  }

  /** The inputs of level `level` widened to the range of both levels' inputs. */
  method WidenInputs(v: Version, level: nat, start: seq<FileMeta>, inputs0: seq<FileMeta>, all: seq<FileMeta>) returns (expanded0: seq<FileMeta>)
    requires Shaped(v) && level + 1 < NUM_LEVELS && Settled(v[level], level, start, inputs0) && inputs0 <= all
    ensures Settled(v[level], level, start, expanded0) && Widened(v, level, all, expanded0)
  {
    var wide := ChooseOverlapping(v, level, Some(Smallest(all)), Some(Largest(all)));
    RangeHolds(v[level], inputs0, all, wide);
    expanded0 := CloseOverBoundary(v, level, wide);
  }

  /** Expanding is worth it: more files of this level, none more of the next, and not too much in all. */
  predicate WorthExpanding(v: Version, level: nat, inputs0: seq<FileMeta>, inputs1: seq<FileMeta>, expanded0: seq<FileMeta>, maxFileSize: nat)
    requires level + 1 < NUM_LEVELS
  {
    && |expanded0| > |inputs0| && TotalFileSize(inputs1) + TotalFileSize(expanded0) < 25 * maxFileSize
    && |NextLevelInputs(v, level, expanded0)| == |inputs1|
  }

  /** What Expand makes of inputs0. */
  ghost predicate Expanded(v: Version, level: nat, inputs0: seq<FileMeta>, r0: seq<FileMeta>, maxFileSize: nat)
    requires level + 1 < NUM_LEVELS && inputs0 != []
  {
    var inputs1 := NextLevelInputs(v, level, inputs0);
    if inputs1 == [] then r0 == inputs0
    else exists wide ::
      Widened(v, level, inputs0 + inputs1, wide) && r0 == if WorthExpanding(v, level, inputs0, inputs1, wide, maxFileSize) then wide else inputs0
  }

  /** The inputs of level `level` grow exactly if the next level's do not and the total stays small. */
  method Expand(v: Version, level: nat, start: seq<FileMeta>, inputs0: seq<FileMeta>, inputs1: seq<FileMeta>, maxFileSize: nat)
    returns (r0: seq<FileMeta>, r1: seq<FileMeta>)
    requires Shaped(v) && level + 1 < NUM_LEVELS && Settled(v[level], level, start, inputs0)
    requires inputs1 == NextLevelInputs(v, level, inputs0)
    ensures Settled(v[level], level, start, r0) && r1 == NextLevelInputs(v, level, r0)
    ensures Expanded(v, level, inputs0, r0, maxFileSize)
  {
    r0, r1 := inputs0, inputs1;
    if inputs1 != [] {
      var expanded0 := WidenInputs(v, level, start, inputs0, inputs0 + inputs1);
      if |expanded0| > |inputs0| && TotalFileSize(inputs1) + TotalFileSize(expanded0) < 25 * maxFileSize {
        var expanded1 := OverlappingNext(v, level, expanded0);
        if |expanded1| == |inputs1| {
          r0, r1 := expanded0, expanded1;
        }
      }
      assert Widened(v, level, inputs0 + inputs1, expanded0);
    }
  }

  method Grandparents(v: Version, level: nat, all: seq<FileMeta>) returns (grandparents: seq<FileMeta>)
    requires Shaped(v) && level + 1 < NUM_LEVELS && all != []
    ensures level + 2 < NUM_LEVELS ==> grandparents == NextLevelInputs(v, level + 1, all)
    ensures level + 2 == NUM_LEVELS ==> grandparents == []
  {
    grandparents := [];
    if level + 2 < NUM_LEVELS {
      grandparents := OverlappingNext(v, level + 1, all);
    }
  }

  method SetupOtherInputs(v: Version, level: nat, start: seq<FileMeta>, maxFileSize: nat) returns (c: CompactionInputs)
    requires Shaped(v) && level + 1 < NUM_LEVELS && Startable(v[level], level, start)
    ensures c.level == level && Chosen(v, c)
    ensures forall f :: f in start ==> f in c.inputs0
    ensures forall f :: f in v[level] ==> !Continues(f, Largest(c.inputs0))
    ensures exists closed :: closed != [] && BoundaryChain(v[level], start, closed) && Expanded(v, level, closed, c.inputs0, maxFileSize)
  {
    var inputs0 := CloseOverBoundary(v, level, start);
    var inputs1 := OverlappingNext(v, level, inputs0);
    ghost var closed := inputs0;
    inputs0, inputs1 := Expand(v, level, start, inputs0, inputs1, maxFileSize);
    assert Expanded(v, level, closed, inputs0, maxFileSize);
    var grandparents := Grandparents(v, level, inputs0 + inputs1);
    c := CompactionInputs(level, inputs0, inputs1, grandparents);
  }

  /** Widening to the whole range keeps every file chosen so far. */
  lemma RangeHolds(files: seq<FileMeta>, inputs0: seq<FileMeta>, all: seq<FileMeta>, expanded: seq<FileMeta>)
    requires Ordered(files) && inputs0 != [] && inputs0 <= all
    requires forall f :: f in inputs0 ==> f in files
    requires forall f :: f in files && Overlaps(f, Some(Smallest(all).user), Some(Largest(all).user)) ==> f in expanded
    ensures expanded != [] && forall f :: f in inputs0 ==> f in expanded
  {
    forall f | f in inputs0 ensures f in expanded {
      assert f in all && f in files;
      assert !Before(f.smallest, Smallest(all)) && !Before(Largest(all), f.largest);
      assert Overlaps(f, Some(Smallest(all).user), Some(Largest(all).user));
    }
    assert inputs0[0] in expanded;
  }

  lemma {:induction false} TotalFileSizeJoin(a: seq<FileMeta>, b: seq<FileMeta>)
    ensures TotalFileSize(a + b) == TotalFileSize(a) + TotalFileSize(b)
    decreases |b|
  {
    if b == [] {
      assert a + b == a;
    } else {
      assert (a + b)[..|a + b| - 1] == a + b[..|b| - 1];
      TotalFileSizeJoin(a, b[..|b| - 1]);
    }
  }

  // ----- which level and which file -----

  const L0_COMPACTION_TRIGGER: real := 4.0

  function MaxBytesForLevel(level: nat): (bytes: real)
    ensures bytes > 0.0
  {
    if level <= 1 then 10.0 * 1048576.0 else MaxBytesForLevel(level - 1) * 10.0
  }

  /** How far a level is over its limit: level 0 by its files, the others by their bytes. */
  function Score(v: Version, level: nat): real
    requires level < NUM_LEVELS
  {
    if level == 0 then |v[0]| as real / L0_COMPACTION_TRIGGER
    else TotalFileSize(v[level]) as real / MaxBytesForLevel(level)
  }

  /** A level is due for compaction with four files on level 0, with ten megabytes on level 1 and ten times as much on each deeper one. */
  lemma DueLevels(v: Version)
    ensures Score(v, 0) >= 1.0 <==> |v[0]| >= 4
    ensures Score(v, 1) >= 1.0 <==> TotalFileSize(v[1]) >= 10_485_760
    ensures Score(v, 2) >= 1.0 <==> TotalFileSize(v[2]) >= 104_857_600
    ensures Score(v, 3) >= 1.0 <==> TotalFileSize(v[3]) >= 1_048_576_000
    ensures Score(v, 4) >= 1.0 <==> TotalFileSize(v[4]) >= 10_485_760_000
    ensures Score(v, 5) >= 1.0 <==> TotalFileSize(v[5]) >= 104_857_600_000
  {
    assert MaxBytesForLevel(1) == 10_485_760.0;
    assert MaxBytesForLevel(2) == 104_857_600.0;
    assert MaxBytesForLevel(3) == 1_048_576_000.0;
    assert MaxBytesForLevel(4) == 10_485_760_000.0;
    assert MaxBytesForLevel(5) == 104_857_600_000.0;
  }

  ghost predicate BestLevel(v: Version, level: nat, score: real) {
    && level + 1 < NUM_LEVELS && score == Score(v, level)
    && (forall l: nat :: l + 1 < NUM_LEVELS ==> Score(v, l) <= score)
    && (forall l: nat :: l < level ==> Score(v, l) < score)
  }

  /** Finalize: the first level with the greatest score; the last level is never compacted. */
  method Finalize(v: Version) returns (level: nat, score: real)
    ensures BestLevel(v, level, score)
  {
    level, score := 0, Score(v, 0);
    for l: nat := 1 to NUM_LEVELS - 1
      invariant level < l && score == Score(v, level)
      invariant forall m: nat :: m < l ==> Score(v, m) <= score
      invariant forall m: nat :: m < level ==> Score(v, m) < score
    {
      if Score(v, l) > score {
        level, score := l, Score(v, l);
      }
    }
  }

  predicate AfterPointer(pointer: Option<InternalKey>, f: FileMeta) {
    pointer.None? || Before(pointer.value, f.largest)
  }

  /** `f` is the first file past the pointer, or the first of all when there is none. */
  ghost predicate FirstPast(files: seq<FileMeta>, pointer: Option<InternalKey>, f: FileMeta) {
    exists i :: 0 <= i < |files| && files[i] == f && PastAt(files, pointer, i)
  }

  ghost predicate PastAt(files: seq<FileMeta>, pointer: Option<InternalKey>, i: nat)
    requires i < |files|
  {
    && (forall j :: 0 <= j < i ==> !AfterPointer(pointer, files[j]))
    && (AfterPointer(pointer, files[i]) || (i == 0 && forall f :: f in files ==> !AfterPointer(pointer, f)))
  }

  /** The first file past the level's compact pointer, or the first of all when there is none. */
  method ChooseFile(files: seq<FileMeta>, pointer: Option<InternalKey>) returns (i: nat)
    requires files != []
    ensures i < |files| && PastAt(files, pointer, i)
  {
    i := 0;
    while i < |files| && !AfterPointer(pointer, files[i])
      invariant i <= |files| && forall j :: 0 <= j < i ==> !AfterPointer(pointer, files[j])
    {
      i := i + 1;
    }
    if i == |files| {
      i := 0;
    }
  }

  /** Above level 0 the pointer goes round: after inputs that end with file `j`, the next file is chosen. */
  lemma RoundRobin(files: seq<FileMeta>, chosen: seq<FileMeta>, i: nat) returns (j: nat)
    requires Disjoint(files) && Ordered(files) && chosen != [] && i < |files|
    requires forall f :: f in chosen ==> f in files
    requires PastAt(files, Some(Largest(chosen)), i)
    ensures j < |files| && files[j] in chosen && files[j].largest == Largest(chosen)
    ensures i == (if j + 1 == |files| then 0 else j + 1)
    ensures i > 0 ==> files[i] !in chosen
  {
    var f :| f in chosen && f.largest == Largest(chosen);
    j :| 0 <= j < |files| && files[j] == f;
    LargestRises(files);
    assert forall k :: j < k < |files| ==> AfterPointer(Some(f.largest), files[k]);
    assert !AfterPointer(Some(f.largest), files[j]);
    assert j + 1 < |files| ==> files[j + 1] in files;
  }

  lemma LargestRises(files: seq<FileMeta>)
    requires Disjoint(files) && Ordered(files)
    ensures forall i, j :: 0 <= i < j < |files| ==> Before(files[i].largest, files[j].largest)
  {
    forall i, j | 0 <= i < j < |files| ensures Before(files[i].largest, files[j].largest) {
      assert files[j] in files && Before(files[i].largest, files[j].smallest);
    }
  }

  /** The file a compaction starts from: a level over its limit comes before a file with too many seeks. */
  method PickFile(v: Version, pointers: seq<Option<InternalKey>>, seek: Option<(nat, FileMeta)>)
    returns (picked: Option<(nat, FileMeta)>)
    requires |pointers| == NUM_LEVELS
    ensures picked.None? <==> seek.None? && forall l: nat :: l + 1 < NUM_LEVELS ==> Score(v, l) < 1.0
    ensures picked.Some? ==>
      if exists l: nat :: l + 1 < NUM_LEVELS && Score(v, l) >= 1.0
      then picked.value.0 + 1 < NUM_LEVELS && BestLevel(v, picked.value.0, Score(v, picked.value.0))
           && FirstPast(v[picked.value.0], pointers[picked.value.0], picked.value.1)
      else picked == seek
  {
    var level, score := Finalize(v);
    if score >= 1.0 {
      assert v[level] != [];
      var i := ChooseFile(v[level], pointers[level]);
      picked := Some((level, v[level][i]));
    } else {
      picked := seek;
    }
  }

  /** The inputs around one file. */
  method InputsAround(v: Version, level: nat, f: FileMeta, maxFileSize: nat) returns (c: CompactionInputs)
    requires Shaped(v) && level + 1 < NUM_LEVELS && f in v[level]
    ensures c.level == level && Chosen(v, c) && f in c.inputs0
    ensures forall g :: g in v[level] ==> !Continues(g, Largest(c.inputs0))
  {
    var inputs0 := [f];
    if level == 0 {
      inputs0 := ChooseOverlapping(v, 0, Some(f.smallest), Some(f.largest));
      assert f in inputs0;
    } else {
      ghost var i :| 0 <= i < |v[level]| && v[level][i] == f;
      assert Neighbours(v[level], [f], i);
    }
    c := SetupOtherInputs(v, level, inputs0, maxFileSize);
  }

  /**
   The compaction most in need: none exactly if no level scores 1 and no file has
   had too many seeks; by size from the first file past the compact pointer of
   the best level; else from the sought file.
   */
  ghost predicate Picked(v: Version, pointers: seq<Option<InternalKey>>, seek: Option<(nat, FileMeta)>,
                         c: Option<CompactionInputs>, pointers': seq<Option<InternalKey>>)
    requires |pointers| == NUM_LEVELS
  {
    && (c.None? <==> seek.None? && forall l: nat :: l + 1 < NUM_LEVELS ==> Score(v, l) < 1.0)
    && (c.None? ==> pointers' == pointers)
    && (c.Some? ==> Chosen(v, c.value) && pointers' == pointers[c.value.level := Some(Largest(c.value.inputs0))])
    && (c.Some? ==> forall f :: f in v[c.value.level] ==> !Continues(f, Largest(c.value.inputs0)))
    && (c.Some? ==>
          if exists l: nat :: l + 1 < NUM_LEVELS && Score(v, l) >= 1.0
          then BestLevel(v, c.value.level, Score(v, c.value.level))
               && exists f :: f in c.value.inputs0 && FirstPast(v[c.value.level], pointers[c.value.level], f)
          else seek.Some? && c.value.level == seek.value.0 && seek.value.1 in c.value.inputs0)
  }

  /** PickCompaction: the file picked is among the inputs, and its level's pointer moves to their end. */
  method PickCompaction(v: Version, pointers: seq<Option<InternalKey>>, seek: Option<(nat, FileMeta)>, maxFileSize: nat)
    returns (c: Option<CompactionInputs>, pointers': seq<Option<InternalKey>>)
    requires Shaped(v) && |pointers| == NUM_LEVELS
    requires seek.Some? ==> seek.value.0 + 1 < NUM_LEVELS && seek.value.1 in v[seek.value.0]
    ensures Picked(v, pointers, seek, c, pointers')
  {
    var picked := PickFile(v, pointers, seek);
    if picked.None? {
      return None, pointers;
    }
    var level, f := picked.value.0, picked.value.1;
    var r := InputsAround(v, level, f, maxFileSize);
    c, pointers' := Some(r), pointers[level := Some(Largest(r.inputs0))];
  }

  /** The files up to the first at which their sizes reach the limit. */
  method CutAtSize(inputs: seq<FileMeta>, limit: nat) returns (cut: seq<FileMeta>)
    requires inputs != []
    ensures cut != [] && cut <= inputs && (cut == inputs || TotalFileSize(cut) >= limit)
    ensures TotalFileSize(cut[..|cut| - 1]) < limit || |cut| == 1
  {
    var total := 0;
    for i := 0 to |inputs|
      invariant total == TotalFileSize(inputs[..i]) && (i > 0 ==> total < limit)
    {
      assert inputs[..i + 1][..i] == inputs[..i];
      total := total + inputs[i].size;
      if total >= limit {
        return inputs[..i + 1];
      }
    }
    assert inputs[..|inputs|] == inputs;
    TotalFileSizeJoin(inputs[..|inputs| - 1], [inputs[|inputs| - 1]]);
    assert inputs == inputs[..|inputs| - 1] + [inputs[|inputs| - 1]];
    return inputs;
  }

  /** The inputs hold every file that meets the range, or enough of them to reach the size limit. */
  ghost predicate CoversRange(files: seq<FileMeta>, level: nat, begin: Option<UserKey>, end: Option<UserKey>, limit: nat,
                              inputs0: seq<FileMeta>) {
    || (forall f :: f in files && Overlaps(f, begin, end) ==> f in inputs0)
    || (level > 0 && exists some :: TotalFileSize(some) >= limit && some != [] && forall f :: f in some ==> f in inputs0)
  }

  lemma EmptyElements<T>(s: seq<T>)
    ensures s != [] ==> Elements(s) != {}
  {
    if s != [] {
      assert s[0] in Elements(s);
    }
  }

  ghost predicate NoneInRange(files: seq<FileMeta>, begin: Option<UserKey>, end: Option<UserKey>) {
    forall f :: f in files ==> !Overlaps(f, begin, end)
  }

  lemma NothingInRange(files: seq<FileMeta>, begin: Option<UserKey>, end: Option<UserKey>, inputs: seq<FileMeta>)
    requires LeastOverlapClosed(files, begin, end, Elements(inputs))
    ensures inputs == [] <==> NoneInRange(files, begin, end)
  {
    if inputs == [] {
      assert forall f :: f !in Elements(inputs);
    }
    if NoneInRange(files, begin, end) {
      assert OverlapClosed(files, begin, end, {});
      assert Elements(inputs) == {};
      EmptyElements(inputs);
    }
  }

  /** The start of a manual compaction: what meets the range, cut short at the size limit above level 0. */
  method RangeStart(v: Version, level: nat, begin: Option<InternalKey>, end: Option<InternalKey>, limit: nat)
    returns (start: seq<FileMeta>)
    requires Shaped(v) && level < NUM_LEVELS
    ensures start == [] <==> NoneInRange(v[level], UserOf(begin), UserOf(end))
    ensures start != [] ==> Startable(v[level], level, start) && CoversRange(v[level], level, UserOf(begin), UserOf(end), limit, start)
  {
    var inputs, lo, hi := GetOverlappingInputs(v[level], level, begin, end);
    start := inputs;
    if level == 0 {
      SelectNoDuplicates(v[0], lo, hi);
      assert forall f :: f in inputs <==> f in Elements(inputs);
      NothingInRange(v[0], UserOf(begin), UserOf(end), inputs);
    } else if inputs == [] {
      assert NoneInRange(v[level], UserOf(begin), UserOf(end));
    } else {
      assert inputs[0] in inputs;
      ghost var a := SelectNeighbours(v[level], lo, hi, inputs);
      start := CutAtSize(inputs, limit);
      assert Neighbours(v[level], start, a);
    }
  }

  /** CompactRange: a manual compaction. */
  method CompactRange(v: Version, level: nat, begin: Option<InternalKey>, end: Option<InternalKey>, maxFileSize: nat)
    returns (c: Option<CompactionInputs>)
    requires Shaped(v) && level + 1 < NUM_LEVELS
    ensures c.Some? ==> c.value.level == level && Chosen(v, c.value)
    ensures c.None? <==> NoneInRange(v[level], UserOf(begin), UserOf(end))
    ensures c.Some? ==> CoversRange(v[level], level, UserOf(begin), UserOf(end), maxFileSize, c.value.inputs0)
  {
    var start := RangeStart(v, level, begin, end, maxFileSize);
    if start == [] {
      return None;
    }
    var r := SetupOtherInputs(v, level, start, maxFileSize);
    c := Some(r);
  }

  // ----- where a flushed memtable goes -----

  const MAX_MEM_COMPACT_LEVEL: nat := 2

  ghost predicate Bounded(files: seq<FileMeta>) {
    forall f :: f in files ==> f.smallest.seqno <= MAX_SEQUENCE && f.largest.seqno <= MAX_SEQUENCE
  }

  ghost predicate SomeOverlap(files: seq<FileMeta>, begin: Option<UserKey>, end: Option<UserKey>) {
    exists f :: f in files && Overlaps(f, begin, end)
  }

  /** A linear scan when files may overlap, a binary search when they are disjoint. */
  method SomeFileOverlapsRange(disjoint: bool, files: seq<FileMeta>, begin: Option<UserKey>, end: Option<UserKey>)
    returns (b: bool)
    requires Ordered(files) && (disjoint ==> Disjoint(files) && Bounded(files))
    ensures b == SomeOverlap(files, begin, end)
  {
    if !disjoint {
      for i := 0 to |files|
        invariant forall j :: 0 <= j < i ==> !Overlaps(files[j], begin, end)
      {
        if Overlaps(files[i], begin, end) {
          return true;
        }
      }
      return false;
    }
    var index := 0;
    if begin.Some? {
      forall i, j | 0 <= i < j < |files| ensures Before(files[i].largest, files[j].largest) {
        assert files[j] in files && Before(files[i].largest, files[j].smallest);
      }
      index := FindFile(files, InternalKey(begin.value, MAX_SEQUENCE, Value));
    }
    forall i | 0 <= i < index ensures !Overlaps(files[i], begin, end) {
      assert files[i] in files;
    }
    if index >= |files| {
      return false;
    }
    forall i | index < i < |files| ensures files[index].smallest.user <= files[i].smallest.user {
      assert files[index] in files && Before(files[index].largest, files[i].smallest);
    }
    b := !(end.Some? && end.value < files[index].smallest.user);
    if b {
      assert files[index] in files && Overlaps(files[index], begin, end);
    }
  }

  /** Nothing on the levels down to `level` meets the range. */
  ghost predicate ClearDownTo(v: Version, level: nat, begin: UserKey, end: UserKey)
    requires level < NUM_LEVELS
  {
    forall m :: 0 <= m <= level ==> !SomeOverlap(v[m], Some(begin), Some(end))
  }

  /** The next level but one holds little in the range. */
  ghost predicate FewGrandparents(v: Version, level: nat, begin: UserKey, end: UserKey, limit: nat)
    requires level + 1 < NUM_LEVELS
  {
    TotalFileSize(Select(v[level + 1], Some(begin), Some(end))) <= limit
  }

  /** The size test before the table goes one level down. */
  method ManyGrandparents(v: Version, level: nat, begin: UserKey, end: UserKey, limit: nat) returns (many: bool)
    requires Shaped(v) && level + 2 < NUM_LEVELS
    ensures many == !FewGrandparents(v, level + 1, begin, end, limit)
  {
    var overlaps, _, _ := GetOverlappingInputs(v[level + 2], level + 2,
      Some(InternalKey(begin, MAX_SEQUENCE, Value)), Some(InternalKey(end, 0, Deletion)));
    many := TotalFileSize(overlaps) > limit;
  }

  /** PickLevelForMemTableOutput. */
  method PickLevelForMemTableOutput(v: Version, begin: UserKey, end: UserKey, maxFileSize: nat) returns (level: nat)
    requires Shaped(v) && forall l :: 0 <= l < NUM_LEVELS ==> Bounded(v[l])
    ensures level <= MAX_MEM_COMPACT_LEVEL && (level > 0 ==> ClearDownTo(v, level, begin, end))
    ensures forall m: nat | 0 < m <= level :: FewGrandparents(v, m, begin, end, 10 * maxFileSize)
    ensures level < MAX_MEM_COMPACT_LEVEL && ClearDownTo(v, level + 1, begin, end)
        ==> !FewGrandparents(v, level + 1, begin, end, 10 * maxFileSize)
  {
    level := 0;
    var overlap := SomeFileOverlapsRange(false, v[0], Some(begin), Some(end));
    if overlap {
      return;
    }
    while level < MAX_MEM_COMPACT_LEVEL
      invariant 0 <= level <= MAX_MEM_COMPACT_LEVEL && ClearDownTo(v, level, begin, end)
      invariant forall m: nat | 0 < m <= level :: FewGrandparents(v, m, begin, end, 10 * maxFileSize)
    {
      overlap := SomeFileOverlapsRange(true, v[level + 1], Some(begin), Some(end));
      if overlap {
        break;
      }
      var many := ManyGrandparents(v, level, begin, end, 10 * maxFileSize);
      if many {
        break;
      }
      level := level + 1;
    }
  }
}
