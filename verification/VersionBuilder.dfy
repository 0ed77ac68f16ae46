/**
 VersionSet::Builder: applying edits to a version, and why applying a whole
 list of edits at once installs the same file lists as one at a time
 (version_set.cc).
 */
module VersionBuilder {
  import opened InternalKeys
  import opened Versions

  datatype VersionEdit = VersionEdit(
    comparator: Option<Bytes>,
    logNumber: Option<nat>,
    prevLogNumber: Option<nat>,
    nextFile: Option<nat>,
    lastSequence: Option<nat>,
    compactPointers: seq<(nat, InternalKey)>,
    deleted: set<(nat, nat)>,
    added: seq<(nat, FileMeta)>)

  /** BySmallestKey: ties on the smallest key are broken by file number. */
  predicate BySmallest(f: FileMeta, g: FileMeta) {
    Before(f.smallest, g.smallest) || (f.smallest == g.smallest && f.number < g.number)
  }

  predicate SortedFiles(files: seq<FileMeta>) {
    forall i, j :: 0 <= i < j < |files| ==> BySmallest(files[i], files[j])
  }

  /** Neither comes before the other: a std::set under this order keeps one of them. */
  predicate Equivalent(f: FileMeta, g: FileMeta) {
    f.smallest == g.smallest && f.number == g.number
  }

  predicate InOrder(strict: bool, f: FileMeta, g: FileMeta) {
    if strict then BySmallest(f, g) else !BySmallest(g, f)
  }

  /** Sorted, strictly or with equivalent files side by side. */
  predicate OrderedFiles(strict: bool, files: seq<FileMeta>) {
    forall i, j :: 0 <= i < j < |files| ==> InOrder(strict, files[i], files[j])
  }

  /** A sorted list is determined by its elements. */
  lemma {:induction false} SortedUnique(a: seq<FileMeta>, b: seq<FileMeta>)
    requires SortedFiles(a) && SortedFiles(b)
    requires forall f :: f in a <==> f in b
    ensures a == b
  {
    if a == [] {
      SomeFile(b);
    } else {
      assert a[0] in b && b != [] && b[0] in a;
      assert a[0] == b[0];
      forall f ensures f in a[1..] <==> f in b[1..] {
        TailMember(a, f);
        TailMember(b, f);
      }
      SortedUnique(a[1..], b[1..]);
      assert a == [a[0]] + a[1..] && b == [b[0]] + b[1..];
    }
  }

  lemma SomeFile(files: seq<FileMeta>)
    ensures files != [] ==> exists f :: f in files
  {
    if files != [] {
      assert files[0] in files;
    }
  }

  lemma TailMember(a: seq<FileMeta>, f: FileMeta)
    requires a != [] && SortedFiles(a)
    ensures f in a[1..] <==> f in a && f != a[0]
  {
    assert a == [a[0]] + a[1..];
    if f in a[1..] {
      var i :| 0 <= i < |a[1..]| && a[1..][i] == f;
      assert a[i + 1] == f && BySmallest(a[0], a[i + 1]);
    }
  }

  // ----- one level -----

  /** LevelState: numbers deleted and files added since the base version. */
  datatype LevelState = LevelState(deleted: set<nat>, added: set<FileMeta>)

  ghost function DeletedIn(deleted: set<(nat, nat)>, level: nat): set<nat> {
    set d | d in deleted && d.0 == level :: d.1
  }

  ghost function AddedIn(added: seq<(nat, FileMeta)>, level: nat): set<FileMeta> {
    set a | a in added && a.0 == level :: a.1
  }

  ghost function DeletedAt(edit: VersionEdit, level: nat): set<nat> {
    DeletedIn(edit.deleted, level)
  }

  ghost function AddedAt(edit: VersionEdit, level: nat): set<FileMeta> {
    AddedIn(edit.added, level)
  }

  ghost function Numbers(files: set<FileMeta>): set<nat> {
    set f | f in files :: f.number
  }

  /** std::set::insert: refused when an equivalent file is there. */
  ghost function WithFile(files: set<FileMeta>, f: FileMeta): set<FileMeta> {
    if exists g :: g in files && Equivalent(g, f) then files else files + {f}
  }

  ghost function AddOne(s: LevelState, f: FileMeta): LevelState {
    LevelState(s.deleted - {f.number}, WithFile(s.added, f))
  }

  /** The first i additions, those to the level in order; each cancels a deletion of its number. */
  ghost function AddPrefix(s: LevelState, files: seq<(nat, FileMeta)>, i: nat, l: nat): LevelState
    requires i <= |files|
    decreases i
  {
    if i == 0 then s
    else
      var t := AddPrefix(s, files, i - 1, l);
      if files[i - 1].0 == l then AddOne(t, files[i - 1].1) else t
  }

  /** Builder::Apply on one level: deletions first, then additions. */
  ghost function ApplyLevel(s: LevelState, edit: VersionEdit, level: nat): LevelState {
    AddPrefix(LevelState(s.deleted + DeletedAt(edit, level), s.added), edit.added, |edit.added|, level)
  }

  /** What an edit adds to a level on its own. */
  ghost function NewAt(edit: VersionEdit, level: nat): set<FileMeta> {
    AddPrefix(Fresh(), edit.added, |edit.added|, level).added
  }

  /** Those of `new` with no equivalent in `have`. */
  ghost function Unshadowed(have: set<FileMeta>, others: set<FileMeta>): set<FileMeta> {
    set g | g in others && forall h :: h in have ==> !Equivalent(h, g)
  }

  lemma WithFileUnshadowed(have: set<FileMeta>, some: set<FileMeta>, f: FileMeta)
    ensures WithFile(have + Unshadowed(have, some), f) == have + Unshadowed(have, WithFile(some, f))
  {
    var all := have + Unshadowed(have, some);
    if g :| g in have && Equivalent(g, f) {
      assert g in all;
      assert Unshadowed(have, some + {f}) == Unshadowed(have, some);
    } else if g :| g in some && Equivalent(g, f) {
      assert g in all;
    } else {
      assert Unshadowed(have, some + {f}) == Unshadowed(have, some) + {f};
    }
  }

  lemma {:induction false} AddPrefixForm(s: LevelState, files: seq<(nat, FileMeta)>, i: nat, l: nat)
    requires i <= |files|
    ensures AddPrefix(s, files, i, l) == LevelState(s.deleted - Numbers(AddedIn(files[..i], l)),
                                                    s.added + Unshadowed(s.added, AddPrefix(Fresh(), files, i, l).added))
  {
    if i == 0 {
      assert files[..0] == [] && AddedIn(files[..0], l) == {};
    } else {
      AddPrefixForm(s, files, i - 1, l);
      AddedInStep(files, i - 1, l);
      if files[i - 1].0 == l {
        WithFileUnshadowed(s.added, AddPrefix(Fresh(), files, i - 1, l).added, files[i - 1].1);
      }
    }
  }

  /** What Apply does to a level, in one step. */
  lemma ApplyForm(s: LevelState, edit: VersionEdit, level: nat)
    ensures ApplyLevel(s, edit, level) == LevelState((s.deleted + DeletedAt(edit, level)) - Numbers(AddedAt(edit, level)),
                                                     s.added + Unshadowed(s.added, NewAt(edit, level)))
  {
    AddPrefixForm(LevelState(s.deleted + DeletedAt(edit, level), s.added), edit.added, |edit.added|, level);
    assert edit.added[..|edit.added|] == edit.added;
  }

  /** Of the files an edit adds, every number is kept, and all files if no two are equivalent. */
  lemma {:induction false} NewPrefix(files: seq<(nat, FileMeta)>, i: nat, l: nat)
    requires i <= |files|
    ensures var some := AddPrefix(Fresh(), files, i, l).added;
      && some <= AddedIn(files[..i], l) && Numbers(some) == Numbers(AddedIn(files[..i], l))
      && (NoneTwice(AddedIn(files[..i], l)) ==> some == AddedIn(files[..i], l))
  {
    if i == 0 {
      assert files[..0] == [] && AddedIn(files[..0], l) == {};
    } else {
      NewPrefix(files, i - 1, l);
      AddedInStep(files, i - 1, l);
      if files[i - 1].0 == l {
        WithFileNumbers(AddPrefix(Fresh(), files, i - 1, l).added, AddedIn(files[..i - 1], l), files[i - 1].1);
      }
    }
  }

  /** No two files are equivalent. */
  ghost predicate NoneTwice(files: set<FileMeta>) {
    forall f, g :: f in files && g in files && Equivalent(f, g) ==> f == g
  }

  lemma WithFileNumbers(some: set<FileMeta>, all: set<FileMeta>, f: FileMeta)
    requires some <= all && Numbers(some) == Numbers(all) && (NoneTwice(all) ==> some == all)
    ensures WithFile(some, f) <= all + {f} && Numbers(WithFile(some, f)) == Numbers(all + {f})
    ensures NoneTwice(all + {f}) ==> WithFile(some, f) == all + {f}
  {
    assert Numbers(all + {f}) == Numbers(all) + {f.number};
    assert Numbers(some + {f}) == Numbers(some) + {f.number};
    if g :| g in some && Equivalent(g, f) {
      assert g.number in Numbers(some);
      assert NoneTwice(all + {f}) ==> g == f;
    }
    if NoneTwice(all + {f}) {
      assert NoneTwice(all);
    }
  }

  lemma NewIsAdded(edit: VersionEdit, level: nat)
    ensures NewAt(edit, level) <= AddedAt(edit, level) && Numbers(NewAt(edit, level)) == Numbers(AddedAt(edit, level))
    ensures NoneTwice(AddedAt(edit, level)) ==> NewAt(edit, level) == AddedAt(edit, level)
  {
    NewPrefix(edit.added, |edit.added|, level);
    assert edit.added[..|edit.added|] == edit.added;
  }

  /** The files SaveTo writes: base and added, less those whose number is deleted. */
  ghost function Saved(base: set<FileMeta>, s: LevelState): set<FileMeta> {
    set f | f in base + s.added && f.number !in s.deleted
  }

  ghost function Fresh(): LevelState {
    LevelState({}, {})
  }

  ghost function ApplyAll(s: LevelState, edits: seq<VersionEdit>, level: nat): LevelState
    decreases |edits|
  {
    if edits == [] then s else ApplyAll(ApplyLevel(s, edits[0], level), edits[1..], level)
  }

  /** LogAndApply edit by edit, each with a fresh builder on the previous result. */
  ghost function InstallEach(base: set<FileMeta>, edits: seq<VersionEdit>, level: nat): set<FileMeta>
    decreases |edits|
  {
    if edits == [] then base
    else InstallEach(Saved(base, ApplyLevel(Fresh(), edits[0], level)), edits[1..], level)
  }

  /** Every file number is added to the level at most once, counting the files already there. */
  ghost predicate AddedOnce(present: set<nat>, edits: seq<VersionEdit>, level: nat)
    decreases |edits|
  {
    edits == [] ||
    (present !! Numbers(AddedAt(edits[0], level))
     && AddedOnce(present + Numbers(AddedAt(edits[0], level)), edits[1..], level))
  }

  /** A builder part way through equals its saved result with a fresh builder. */
  lemma {:induction false} BatchEqualsEach(base: set<FileMeta>, s: LevelState, edits: seq<VersionEdit>, level: nat)
    requires AddedOnce(Numbers(base + s.added), edits, level)
    ensures Saved(base, ApplyAll(s, edits, level)) == InstallEach(Saved(base, s), edits, level)
    decreases |edits|
  {
    if edits != [] {
      var e := edits[0];
      var next := ApplyLevel(s, e, level);
      AddedNumbers(base, s, e, level);
      BatchEqualsEach(base, next, edits[1..], level);
      StepCommutesIff(base, s, e, level);
    }
  }

  lemma AddedNumbers(base: set<FileMeta>, s: LevelState, e: VersionEdit, level: nat)
    requires Numbers(base + s.added) !! Numbers(AddedAt(e, level))
    ensures Numbers(base + ApplyLevel(s, e, level).added) == Numbers(base + s.added) + Numbers(AddedAt(e, level))
    ensures !Readds(base, s, e, level) && !Shadowed(base, s, e, level)
  {
    ApplyForm(s, e, level);
    NewIsAdded(e, level);
    var others := NewAt(e, level);
    forall g | g in others ensures g.number in Numbers(AddedAt(e, level)) && forall h :: h in base + s.added ==> h.number != g.number {
      assert g.number in Numbers(others);
      assert forall h :: h in base + s.added ==> h.number in Numbers(base + s.added);
    }
    assert Unshadowed(s.added, others) == others;
    assert Numbers(base + (s.added + others)) == Numbers(base + s.added) + Numbers(others);
    assert forall f :: f in base + s.added ==> f.number in Numbers(base + s.added);
  }

  /** An edit adds a number that is deleted in `s`, as another file than the one it named. */
  ghost predicate Readds(base: set<FileMeta>, s: LevelState, e: VersionEdit, level: nat) {
    exists f :: f in base + s.added && f.number in s.deleted && f.number in Numbers(AddedAt(e, level)) && f !in NewAt(e, level)
  }

  /** An edit adds another version of a file added since the base: same number, same smallest key. */
  ghost predicate Shadowed(base: set<FileMeta>, s: LevelState, e: VersionEdit, level: nat) {
    exists g, h :: g in NewAt(e, level) && g !in base + s.added && h in s.added && Equivalent(h, g)
  }

  lemma StepCommutesIff(base: set<FileMeta>, s: LevelState, e: VersionEdit, level: nat)
    ensures Saved(base, ApplyLevel(s, e, level)) == Saved(Saved(base, s), ApplyLevel(Fresh(), e, level))
        <==> !Readds(base, s, e, level) && !Shadowed(base, s, e, level)
  {
    ApplyForm(s, e, level);
    ApplyForm(Fresh(), e, level);
    NewIsAdded(e, level);
    CommuteIff(base, s, DeletedAt(e, level), Numbers(AddedAt(e, level)), NewAt(e, level));
  }

  /** The same on sets: `d` are the edit's deletions, `n` the numbers it adds, `others` its files. */
  lemma CommuteIff(base: set<FileMeta>, s: LevelState, d: set<nat>, n: set<nat>, others: set<FileMeta>)
    requires Numbers(others) == n
    ensures Saved(base, LevelState((s.deleted + d) - n, s.added + Unshadowed(s.added, others)))
              == Saved(Saved(base, s), LevelState(({} + d) - n, {} + Unshadowed({}, others)))
        <==> !(exists f :: f in base + s.added && f.number in s.deleted && f.number in n && f !in others)
             && !(exists g, h :: g in others && g !in base + s.added && h in s.added && Equivalent(h, g))
  {
    var batch := Saved(base, LevelState((s.deleted + d) - n, s.added + Unshadowed(s.added, others)));
    var each := Saved(Saved(base, s), LevelState(({} + d) - n, {} + Unshadowed({}, others)));
    forall g | g in others ensures g.number in n && g in each {
      assert g.number in Numbers(others);
    }
    forall f | f in base + s.added && f !in others
      ensures f in batch <==> f.number !in (s.deleted + d) - n
      ensures f in each <==> f.number !in s.deleted && f.number !in d - n
    {
    }
    forall g | g in others
      ensures g in batch <==> g in base + s.added || forall h :: h in s.added ==> !Equivalent(h, g)
    {
    }
    if f :| f in base + s.added && f.number in s.deleted && f.number in n && f !in others {
      assert f in batch && f !in each;
    } else if g, h :| g in others && g !in base + s.added && h in s.added && Equivalent(h, g) {
      assert g in each && g !in batch;
    } else {
      assert forall f :: f in batch <==> f in each;
    }
  }

  lemma {:induction false} ApplyAllSnoc(s: LevelState, edits: seq<VersionEdit>, e: VersionEdit, level: nat)
    ensures ApplyAll(s, edits + [e], level) == ApplyLevel(ApplyAll(s, edits, level), e, level)
    decreases |edits|
  {
    var all := edits + [e];
    if edits == [] {
      assert all[1..] == [];
    } else {
      assert all[1..] == edits[1..] + [e];
      ApplyAllSnoc(ApplyLevel(s, edits[0], level), edits[1..], e, level);
    }
  }

  lemma {:induction false} InstallEachSnoc(base: set<FileMeta>, edits: seq<VersionEdit>, e: VersionEdit, level: nat)
    ensures InstallEach(base, edits + [e], level) == Saved(InstallEach(base, edits, level), ApplyLevel(Fresh(), e, level))
    decreases |edits|
  {
    var all := edits + [e];
    if edits == [] {
      assert all[1..] == [];
    } else {
      assert all[1..] == edits[1..] + [e];
      InstallEachSnoc(Saved(base, ApplyLevel(Fresh(), edits[0], level)), edits[1..], e, level);
    }
  }

  /** One builder over the edits agrees with installing them one by one. */
  ghost predicate Agrees(base: set<FileMeta>, edits: seq<VersionEdit>, level: nat) {
    Saved(base, ApplyAll(Fresh(), edits, level)) == InstallEach(base, edits, level)
  }

  /** After these edits one more neither adds a deleted number again as another file nor a second version of an added file. */
  ghost predicate Harmless(base: set<FileMeta>, edits: seq<VersionEdit>, e: VersionEdit, level: nat) {
    var s := ApplyAll(Fresh(), edits, level);
    !Readds(base, s, e, level) && !Shadowed(base, s, e, level)
  }

  lemma AgreesSnoc(base: set<FileMeta>, edits: seq<VersionEdit>, e: VersionEdit, level: nat)
    requires Agrees(base, edits, level)
    ensures Agrees(base, edits + [e], level) <==> Harmless(base, edits, e, level)
  {
    ApplyAllSnoc(Fresh(), edits, e, level);
    InstallEachSnoc(base, edits, e, level);
    StepCommutesIff(base, ApplyAll(Fresh(), edits, level), e, level);
  }

  /** The two agree after every edit of the list if and only if every edit is harmless. */
  lemma {:induction false} AgreeIffHarmless(base: set<FileMeta>, edits: seq<VersionEdit>, level: nat)
    ensures (forall k | 0 <= k <= |edits| :: Agrees(base, edits[..k], level)) <==>
            (forall k | 0 <= k < |edits| :: Harmless(base, edits[..k], edits[k], level))
    decreases |edits|
  {
    if edits == [] {
      assert Saved(base, Fresh()) == base;
      assert forall k :: 0 <= k <= |edits| ==> edits[..k] == [];
    } else {
      var n := |edits| - 1;
      var front := edits[..n];
      AgreeIffHarmless(base, front, level);
      assert forall k :: 0 <= k <= n ==> front[..k] == edits[..k];
      assert edits[..n + 1] == front + [edits[n]];
      if Agrees(base, front, level) {
        AgreesSnoc(base, front, edits[n], level);
      }
    }
  }

  lemma OneAdded(e: VersionEdit, g: FileMeta)
    requires e == Edit({}, [(0, g)])
    ensures NewAt(e, 0) == {g} && AddedAt(e, 0) == {g} && Numbers({g}) == {g.number} && DeletedAt(e, 0) == {}
  {
    assert (0, g) in e.added;
    assert NoneTwice(AddedAt(e, 0));
    NewIsAdded(e, 0);
  }

  /** Without AddedOnce it fails: delete a base file, then add it again. */
  lemma ReaddedFileIsDoubled(f: FileMeta, g: FileMeta)
    requires f.number == g.number && f != g
    ensures var edits := [Edit({(0, f.number)}, []), Edit({}, [(0, g)])];
            && Saved({f}, ApplyAll(Fresh(), edits, 0)) == {f, g}
            && InstallEach({f}, edits, 0) == {g}
  {
    var e1, e2 := Edit({(0, f.number)}, []), Edit({}, [(0, g)]);
    var s1 := ApplyLevel(Fresh(), e1, 0);
    assert (0, f.number) in e1.deleted && s1 == LevelState({f.number}, {});
    OneAdded(e2, g);
    ApplyForm(s1, e2, 0);
    ApplyForm(Fresh(), e2, 0);
    assert Unshadowed({}, {g}) == {g};
    assert ApplyLevel(s1, e2, 0) == LevelState({}, {g});
    assert [e1, e2][1..] == [e2] && [e2][1..] == [];
    assert ApplyAll(s1, [e2], 0) == ApplyAll(ApplyLevel(s1, e2, 0), [], 0);
    assert Saved({f}, s1) == {};
    assert Saved({}, ApplyLevel(Fresh(), e2, 0)) == {g};
    assert InstallEach({}, [e2], 0) == InstallEach({g}, [], 0);
  }

  /** It fails too when an edit adds a second version of an added file: the builder's set keeps the first. */
  lemma SecondVersionIsLost(f: FileMeta, g: FileMeta)
    requires Equivalent(f, g) && f != g
    ensures var edits := [Edit({}, [(0, f)]), Edit({}, [(0, g)])];
            && Saved({}, ApplyAll(Fresh(), edits, 0)) == {f}
            && InstallEach({}, edits, 0) == {f, g}
  {
    var e1, e2 := Edit({}, [(0, f)]), Edit({}, [(0, g)]);
    OneAdded(e1, f);
    OneAdded(e2, g);
    ApplyForm(Fresh(), e1, 0);
    ApplyForm(Fresh(), e2, 0);
    assert Unshadowed({}, {f}) == {f} && Unshadowed({}, {g}) == {g} && Unshadowed({f}, {g}) == {};
    var s1 := ApplyLevel(Fresh(), e1, 0);
    ApplyForm(s1, e2, 0);
    assert s1 == LevelState({}, {f}) && ApplyLevel(s1, e2, 0) == s1;
    assert [e1, e2][1..] == [e2] && [e2][1..] == [];
    assert ApplyAll(s1, [e2], 0) == ApplyAll(s1, [], 0);
    assert Saved({}, s1) == {f} && Saved({f}, ApplyLevel(Fresh(), e2, 0)) == {f, g};
    assert InstallEach({f}, [e2], 0) == InstallEach({f, g}, [], 0);
  }

  function Edit(deleted: set<(nat, nat)>, added: seq<(nat, FileMeta)>): VersionEdit {
    VersionEdit(None, None, None, None, None, [], deleted, added)
  }

  // ----- the builder itself -----

  /** std::set<FileMetaData*, BySmallestKey>::insert. */
  function InsertSorted(f: FileMeta, files: seq<FileMeta>): (r: seq<FileMeta>)
    requires SortedFiles(files)
    ensures SortedFiles(r) && Elements(r) == WithFile(Elements(files), f)
  {
    if files == [] || BySmallest(f, files[0]) then [f] + files
    else if Equivalent(f, files[0]) then
      assert files[0] in Elements(files);
      files
    else
      assert files == [files[0]] + files[1..];
      var rest := InsertSorted(f, files[1..]);
      assert forall g :: g in rest <==> g in Elements(rest);
      assert forall j :: 0 <= j < |rest| ==> rest[j] in rest;
      [files[0]] + rest
  }

  /** MaybeAddFile. */
  function MaybeAdd(out: seq<FileMeta>, deleted: set<nat>, f: FileMeta): seq<FileMeta> {
    if f.number in deleted then out else out + [f]
  }

  /** The files less the deleted ones. */
  function Without(files: seq<FileMeta>, deleted: set<nat>): (r: seq<FileMeta>)
    ensures forall f :: f in r <==> f in files && f.number !in deleted
  {
    if files == [] then []
    else
      var n := |files| - 1;
      assert files == files[..n] + [files[n]];
      MaybeAdd(Without(files[..n], deleted), deleted, files[n])
  }

  ghost predicate AllBefore(strict: bool, out: seq<FileMeta>, x: FileMeta) {
    forall f :: f in out ==> InOrder(strict, f, x)
  }

  /** `out` holds the files of both lists, each as often as they do, less the deleted ones. */
  ghost predicate HoldsBoth(out: seq<FileMeta>, bs: seq<FileMeta>, fs: seq<FileMeta>, deleted: set<nat>) {
    multiset(out) == multiset(Without(bs, deleted)) + multiset(Without(fs, deleted))
  }

  /** What one level's merge has written after `b` base files and `a` added files. */
  ghost predicate Merged(strict: bool, base: seq<FileMeta>, added: seq<FileMeta>, deleted: set<nat>, b: nat, a: nat, out: seq<FileMeta>) {
    && b <= |base| && a <= |added|
    && OrderedFiles(strict, out) && HoldsBoth(out, base[..b], added[..a], deleted)
    && (b < |base| ==> AllBefore(strict, out, base[b]))
    && (a < |added| ==> AllBefore(strict, out, added[a]))
  }

  lemma InOrderTransitive(strict: bool, f: FileMeta, g: FileMeta, h: FileMeta)
    requires InOrder(strict, f, g) && InOrder(strict, g, h)
    ensures InOrder(strict, f, h)
  {
  }

  lemma MaybeAddOrdered(strict: bool, out: seq<FileMeta>, deleted: set<nat>, f: FileMeta)
    requires OrderedFiles(strict, out) && AllBefore(strict, out, f)
    ensures OrderedFiles(strict, MaybeAdd(out, deleted, f))
  {
    assert forall j :: 0 <= j < |out| ==> out[j] in out;
  }

  lemma MaybeAddBefore(strict: bool, out: seq<FileMeta>, deleted: set<nat>, f: FileMeta, x: FileMeta)
    requires AllBefore(strict, out, f) && InOrder(strict, f, x)
    ensures AllBefore(strict, MaybeAdd(out, deleted, f), x)
  {
    forall g | g in MaybeAdd(out, deleted, f) ensures InOrder(strict, g, x) {
      if g in out {
        InOrderTransitive(strict, g, f, x);
      }
    }
  }

  lemma WithoutNext(files: seq<FileMeta>, deleted: set<nat>, i: nat)
    requires i < |files|
    ensures Without(files[..i + 1], deleted) == MaybeAdd(Without(files[..i], deleted), deleted, files[i])
  {
    assert files[..i + 1][..i] == files[..i];
  }

  lemma TakeBase(strict: bool, base: seq<FileMeta>, added: seq<FileMeta>, deleted: set<nat>, b: nat, a: nat, out: seq<FileMeta>)
    requires OrderedFiles(strict, base) && Merged(strict, base, added, deleted, b, a, out) && b < |base|
    requires a < |added| ==> InOrder(strict, base[b], added[a])
    ensures Merged(strict, base, added, deleted, b + 1, a, MaybeAdd(out, deleted, base[b]))
  {
    MaybeAddOrdered(strict, out, deleted, base[b]);
    WithoutNext(base, deleted, b);
    if b + 1 < |base| {
      MaybeAddBefore(strict, out, deleted, base[b], base[b + 1]);
    }
    if a < |added| {
      MaybeAddBefore(strict, out, deleted, base[b], added[a]);
    }
  }

  lemma TakeAdded(strict: bool, base: seq<FileMeta>, added: seq<FileMeta>, deleted: set<nat>, b: nat, a: nat, out: seq<FileMeta>)
    requires OrderedFiles(strict, added) && Merged(strict, base, added, deleted, b, a, out) && a < |added|
    requires b < |base| ==> BySmallest(added[a], base[b])
    ensures Merged(strict, base, added, deleted, b, a + 1, MaybeAdd(out, deleted, added[a]))
  {
    MaybeAddOrdered(strict, out, deleted, added[a]);
    WithoutNext(added, deleted, a);
    if a + 1 < |added| {
      MaybeAddBefore(strict, out, deleted, added[a], added[a + 1]);
    }
    if b < |base| {
      MaybeAddBefore(strict, out, deleted, added[a], base[b]);
    }
  }

  lemma MergedIsSaved(base: seq<FileMeta>, added: seq<FileMeta>, deleted: set<nat>, out: seq<FileMeta>)
    requires HoldsBoth(out, base, added, deleted)
    ensures Elements(out) == Saved(Elements(base), LevelState(deleted, Elements(added)))
  {
    forall f ensures f in out <==> f in Without(base, deleted) || f in Without(added, deleted) {
      assert f in out <==> f in multiset(out);
    }
  }

  lemma StrictlyOrdered(files: seq<FileMeta>, strict: bool)
    requires SortedFiles(files)
    ensures OrderedFiles(strict, files)
  {
  }

  /** The base is strictly sorted and no added file is equivalent to one of it. */
  ghost predicate NoneEquivalent(base: seq<FileMeta>, added: seq<FileMeta>) {
    SortedFiles(base) && forall f, g :: f in base && g in added ==> !Equivalent(f, g)
  }

  /** What SaveTo leaves on one level. */
  ghost predicate SavedLevel(base: seq<FileMeta>, added: seq<FileMeta>, deleted: set<nat>, out: seq<FileMeta>) {
    && OrderedFiles(false, out) && (NoneEquivalent(base, added) ==> SortedFiles(out))
    && multiset(out) == multiset(Without(base, deleted)) + multiset(Without(added, deleted))
  }

  lemma NextInOrder(strict: bool, base: seq<FileMeta>, added: seq<FileMeta>, b: nat, a: nat)
    requires strict ==> NoneEquivalent(base, added)
    requires b < |base| && a < |added| && !BySmallest(added[a], base[b])
    ensures InOrder(strict, base[b], added[a])
  {
    assert base[b] in base && added[a] in added;
  }

  /** The base files up to the upper bound of added file `a`. */
  method MergeBefore(base: seq<FileMeta>, added: seq<FileMeta>, deleted: set<nat>, a: nat, start: nat, before: seq<FileMeta>,
                     ghost strict: bool)
    returns (b: nat, out: seq<FileMeta>)
    requires OrderedFiles(strict, base) && (strict ==> NoneEquivalent(base, added))
    requires a < |added| && Merged(strict, base, added, deleted, start, a, before)
    ensures Merged(strict, base, added, deleted, b, a, out) && (b < |base| ==> BySmallest(added[a], base[b]))
  {
    b, out := start, before;
    while b < |base| && !BySmallest(added[a], base[b])
      invariant Merged(strict, base, added, deleted, b, a, out)
    {
      NextInOrder(strict, base, added, b, a);
      TakeBase(strict, base, added, deleted, b, a, out);
      out := MaybeAdd(out, deleted, base[b]);
      b := b + 1;
    }
  }

  /** The base files that remain. */
  method MergeRest(base: seq<FileMeta>, added: seq<FileMeta>, deleted: set<nat>, start: nat, before: seq<FileMeta>, ghost strict: bool)
    returns (out: seq<FileMeta>)
    requires OrderedFiles(strict, base) && Merged(strict, base, added, deleted, start, |added|, before)
    ensures Merged(strict, base, added, deleted, |base|, |added|, out)
  {
    out := before;
    for b := start to |base|
      invariant Merged(strict, base, added, deleted, b, |added|, out)
    {
      TakeBase(strict, base, added, deleted, b, |added|, out);
      out := MaybeAdd(out, deleted, base[b]);
    }
  }

  lemma NothingMerged(strict: bool, base: seq<FileMeta>, added: seq<FileMeta>, deleted: set<nat>)
    ensures Merged(strict, base, added, deleted, 0, 0, [])
  {
    assert base[..0] == [] && added[..0] == [];
  }

  /** The merge: before each added file, the base files up to its upper bound. */
  method MergeLevel(base: seq<FileMeta>, added: seq<FileMeta>, deleted: set<nat>, ghost strict: bool) returns (out: seq<FileMeta>)
    requires OrderedFiles(strict, base) && OrderedFiles(strict, added) && (strict ==> NoneEquivalent(base, added))
    ensures Merged(strict, base, added, deleted, |base|, |added|, out)
  {
    NothingMerged(strict, base, added, deleted);
    out := [];
    var b := 0;
    for a := 0 to |added|
      invariant Merged(strict, base, added, deleted, b, a, out)
    {
      b, out := MergeBefore(base, added, deleted, a, b, out, strict);
      TakeAdded(strict, base, added, deleted, b, a, out);
      out := MaybeAdd(out, deleted, added[a]);
    }
    out := MergeRest(base, added, deleted, b, out, strict);
  }

  /** The files are those `s` leaves of the base, strictly sorted if nothing added is equivalent to a base file. */
  ghost predicate InstalledLevel(base: seq<FileMeta>, s: LevelState, out: seq<FileMeta>) {
    && OrderedFiles(false, out) && Elements(out) == Saved(Elements(base), s)
    && (SortedFiles(base) && (forall f, g :: f in base && g in s.added ==> !Equivalent(f, g)) ==> SortedFiles(out))
  }

  /** Every file as often as base and added hold it, and the level the builder's state asks for. */
  ghost predicate LevelSaved(base: seq<FileMeta>, added: seq<FileMeta>, deleted: set<nat>, out: seq<FileMeta>) {
    SavedLevel(base, added, deleted, out) && InstalledLevel(base, LevelState(deleted, Elements(added)), out)
  }

  /** One level of SaveTo: the sorted merge of base and added files, less the deleted ones. */
  method SaveLevel(base: seq<FileMeta>, added: seq<FileMeta>, deleted: set<nat>) returns (out: seq<FileMeta>)
    requires OrderedFiles(false, base) && SortedFiles(added)
    ensures LevelSaved(base, added, deleted, out)
  {
    ghost var strict := NoneEquivalent(base, added);
    StrictlyOrdered(added, strict);
    out := MergeLevel(base, added, deleted, strict);
    MergedIsLevel(strict, base, added, deleted, out);
    MergedIsSaved(base, added, deleted, out);
  }

  lemma MergedIsLevel(strict: bool, base: seq<FileMeta>, added: seq<FileMeta>, deleted: set<nat>, out: seq<FileMeta>)
    requires Merged(strict, base, added, deleted, |base|, |added|, out) && (NoneEquivalent(base, added) ==> strict)
    ensures SavedLevel(base, added, deleted, out) && HoldsBoth(out, base, added, deleted)
  {
    assert base[..|base|] == base && added[..|added|] == added;
  }

  /** SaveTo's loop over the levels. */
  method SaveLevels(base: Version, added: seq<seq<FileMeta>>, deleted: seq<set<nat>>) returns (v: Version)
    requires |added| == |deleted| == NUM_LEVELS
    requires forall l :: 0 <= l < NUM_LEVELS ==> OrderedFiles(false, base[l]) && SortedFiles(added[l])
    ensures forall l :: 0 <= l < NUM_LEVELS ==> LevelSaved(base[l], added[l], deleted[l], v[l])
  {
    var out: seq<seq<FileMeta>> := [];
    for level := 0 to NUM_LEVELS
      invariant |out| == level
      invariant forall l :: 0 <= l < level ==> LevelSaved(base[l], added[l], deleted[l], out[l])
    {
      var files := SaveLevel(base[level], added[level], deleted[level]);
      out := out + [files];
    }
    v := out;
  }

  /** The edit names existing levels only. */
  ghost predicate LevelsExist(edit: VersionEdit) {
    (forall d :: d in edit.deleted ==> d.0 < NUM_LEVELS) && (forall a :: a in edit.added ==> a.0 < NUM_LEVELS)
  }

  class Builder {
    const base: Version
    var deleted: seq<set<nat>>
    var added: seq<seq<FileMeta>>

    ghost predicate Valid()
      reads this
    {
      && |deleted| == |added| == NUM_LEVELS
      && forall l :: 0 <= l < NUM_LEVELS ==> SortedFiles(added[l])
    }

    ghost function State(l: nat): LevelState
      requires Valid() && l < NUM_LEVELS
      reads this
    {
      LevelState(deleted[l], Elements(added[l]))
    }

    constructor (base: Version)
      ensures Valid() && this.base == base
      ensures forall l :: 0 <= l < NUM_LEVELS ==> State(l) == Fresh()
    {
      this.base := base;
      deleted := seq(NUM_LEVELS, _ => {});
      added := seq(NUM_LEVELS, _ => []);
    }

    /** One deletion for each pair of the set. */
    method DeleteFiles(pairs: set<(nat, nat)>)
      requires Valid() && forall d :: d in pairs ==> d.0 < NUM_LEVELS
      modifies this`deleted
      ensures Valid()
      ensures forall l :: 0 <= l < NUM_LEVELS ==> deleted[l] == old(deleted[l]) + DeletedIn(pairs, l)
    {
      var todo := pairs;
      while todo != {}
        invariant Valid() && todo <= pairs
        invariant forall l :: 0 <= l < NUM_LEVELS ==> deleted[l] == old(deleted[l]) + DeletedIn(pairs - todo, l)
        decreases todo
      {
        var d :| d in todo;
        assert pairs - (todo - {d}) == (pairs - todo) + {d};
        forall l | 0 <= l < NUM_LEVELS
          ensures DeletedIn(pairs - (todo - {d}), l) == DeletedIn(pairs - todo, l) + if l == d.0 then {d.1} else {}
        {
          DeletedInStep(pairs - todo, d, l);
        }
        deleted := deleted[d.0 := deleted[d.0] + {d.1}];
        todo := todo - {d};
      }
      assert pairs - todo == pairs;
    }

    method AddFile(level: nat, f: FileMeta)
      requires Valid() && level < NUM_LEVELS
      modifies this
      ensures Valid()
      ensures forall l :: 0 <= l < NUM_LEVELS ==>
        State(l) == if l == level then AddOne(old(State(l)), f) else old(State(l))
    {
      deleted := deleted[level := deleted[level] - {f.number}];
      added := added[level := InsertSorted(f, added[level])];
    }

    /** The additions in order; each cancels a deletion of its number. */
    method AddFiles(files: seq<(nat, FileMeta)>)
      requires Valid() && forall a :: a in files ==> a.0 < NUM_LEVELS
      modifies this
      ensures Valid()
      ensures forall l :: 0 <= l < NUM_LEVELS ==> State(l) == AddPrefix(old(State(l)), files, |files|, l)
    {
      for i := 0 to |files|
        invariant Valid()
        invariant forall l :: 0 <= l < NUM_LEVELS ==> State(l) == AddPrefix(old(State(l)), files, i, l)
      {
        assert files[i] in files;
        AddFile(files[i].0, files[i].1);
      }
    }

    /** Deletions first, then additions, each of which cancels a deletion of its number. */
    method Apply(edit: VersionEdit)
      requires Valid() && LevelsExist(edit)
      modifies this
      ensures Valid()
      ensures forall l :: 0 <= l < NUM_LEVELS ==> State(l) == ApplyLevel(old(State(l)), edit, l)
    {
      DeleteFiles(edit.deleted);
      AddFiles(edit.added);
    }

    /** SaveTo: every level sorted, holding exactly what the edits leave. */
    method SaveTo() returns (v: Version)
      requires Valid()
      requires forall l :: 0 <= l < NUM_LEVELS ==> OrderedFiles(false, base[l])
      ensures forall l :: 0 <= l < NUM_LEVELS ==>
        LevelSaved(base[l], added[l], deleted[l], v[l]) && InstalledLevel(base[l], State(l), v[l])
    {
      v := SaveLevels(base, added, deleted);
    }
  }

  ghost predicate UniqueNumbers(files: set<FileMeta>) {
    forall f, g :: f in files && g in files && f.number == g.number ==> f == g
  }

  lemma DeletedInStep(done: set<(nat, nat)>, d: (nat, nat), l: nat)
    ensures DeletedIn(done + {d}, l) == DeletedIn(done, l) + if l == d.0 then {d.1} else {}
  {
    assert l == d.0 ==> (l, d.1) == d && d.1 in DeletedIn(done + {d}, l);
  }

  lemma AddedInStep(files: seq<(nat, FileMeta)>, i: nat, l: nat)
    requires i < |files|
    ensures AddedIn(files[..i + 1], l) == AddedIn(files[..i], l) + if l == files[i].0 then {files[i].1} else {}
    ensures Numbers(AddedIn(files[..i + 1], l)) ==
            Numbers(AddedIn(files[..i], l)) + if l == files[i].0 then {files[i].1.number} else {}
    ensures AddedIn(files[..i], l) <= AddedIn(files, l)
  {
    assert files[..i + 1] == files[..i] + [files[i]];
    assert l == files[i].0 ==> files[i].1 in AddedIn(files[..i + 1], l);
  }
}
