/**
 What a compaction keeps: the drop rules of DoCompactionWork, the advancing
 pointers of IsBaseLevelForKey, and when dropping changes no read
 (db_impl.cc, version_set.cc).
 */
module Compactions {
  import opened InternalKeys
  import opened Versions

  predicate Covers(f: FileMeta, user: UserKey) {
    f.smallest.user <= user <= f.largest.user
  }

  /** No file two or more levels below `level` has a user range that covers the key. */
  predicate BaseLevel(v: Version, level: nat, user: UserKey) {
    forall l, i :: level + 2 <= l < NUM_LEVELS && 0 <= i < |v[l]| ==> !Covers(v[l][i], user)
  }

  /** Compaction::level_ptrs_: one cursor per deeper level, advanced by nondecreasing keys. */
  class BaseLevelScan {
    const version: Version
    const level: nat
    var ptrs: seq<nat>
    ghost var asked: Option<UserKey>

    ghost predicate Valid()
      reads this
    {
      && |ptrs| == NUM_LEVELS
      && forall l :: level + 2 <= l < NUM_LEVELS ==>
           && Disjoint(version[l]) && Ordered(version[l])
           && ptrs[l] <= |version[l]|
           && forall i :: 0 <= i < ptrs[l] ==> asked.Some? && version[l][i].largest.user < asked.value
    }

    constructor (version: Version, level: nat)
      requires forall l :: level + 2 <= l < NUM_LEVELS ==> Disjoint(version[l]) && Ordered(version[l])
      ensures Valid() && asked == None && this.version == version && this.level == level
    {
      this.version := version;
      this.level := level;
      ptrs := seq(NUM_LEVELS, _ => 0);
      asked := None;
    }

    /** On nondecreasing keys the advancing pointers answer as a stateless scan would. */
    method IsBaseLevelForKey(user: UserKey) returns (base: bool)
      requires Valid()
      requires asked.Some? ==> asked.value <= user
      modifies this
      ensures Valid() && asked == Some(user)
      ensures base == BaseLevel(version, level, user)
    {
      asked := Some(user);
      var lvl := level + 2;
      while lvl < NUM_LEVELS
        invariant level + 2 <= lvl
        invariant Valid() && asked == Some(user)
        invariant forall l, i :: level + 2 <= l < lvl && l < NUM_LEVELS && 0 <= i < |version[l]| ==> !Covers(version[l][i], user)
        decreases NUM_LEVELS - lvl
      {
        var files := version[lvl];
        while ptrs[lvl] < |files| && files[ptrs[lvl]].largest.user < user
          invariant Valid() && asked == Some(user)
          decreases |files| - ptrs[lvl]
        {
          ptrs := ptrs[lvl := ptrs[lvl] + 1];
        }
        if ptrs[lvl] < |files| && files[ptrs[lvl]].smallest.user <= user {
          assert Covers(version[lvl][ptrs[lvl]], user);
          return false;
        }
        forall i | 0 <= i < |files| ensures !Covers(files[i], user) {
          assert files[i] in files;
          if i > ptrs[lvl] {
            assert Before(files[ptrs[lvl]].largest, files[i].smallest);
          }
        }
        lvl := lvl + 1;
      }
      base := true;
    }
  }

  // ----- the drop rules -----

  /** last_sequence_for_key when entry `i` is reached. */
  function PreviousSequence(input: seq<Entry>, i: nat): nat
    requires i < |input|
  {
    if i > 0 && input[i - 1].key.user == input[i].key.user then input[i - 1].key.seqno else MAX_SEQUENCE
  }

  /** Rule (A): a newer entry for the same user key is already old enough for every snapshot. */
  predicate Hidden(input: seq<Entry>, i: nat, oldest: nat)
    requires i < |input|
  {
    PreviousSequence(input, i) <= oldest
  }

  predicate ObsoleteTombstone(input: seq<Entry>, i: nat, oldest: nat, v: Version, level: nat)
    requires i < |input|
  {
    && !Hidden(input, i, oldest)
    && input[i].key.kind.Deletion?
    && input[i].key.seqno <= oldest
    && BaseLevel(v, level, input[i].key.user)
  }

  predicate Dropped(input: seq<Entry>, i: nat, oldest: nat, v: Version, level: nat)
    requires i < |input|
  {
    Hidden(input, i, oldest) || ObsoleteTombstone(input, i, oldest, v, level)
  }

  /** The entries among the first `n` that are written to the outputs. */
  function Survivors(input: seq<Entry>, n: nat, oldest: nat, v: Version, level: nat): (r: seq<Entry>)
    requires n <= |input|
    ensures forall e :: e in r <==> exists i :: 0 <= i < n && input[i] == e && !Dropped(input, i, oldest, v, level)
    ensures Sorted(input) ==> Sorted(r)
  {
    if n == 0 then []
    else
      var r := Survivors(input, n - 1, oldest, v, level);
      if Dropped(input, n - 1, oldest, v, level) then r
      else
        assert forall j :: 0 <= j < |r| ==> r[j] in r;
        r + [input[n - 1]]
  }

  function Concat(outputs: seq<seq<Entry>>): seq<Entry> {
    if outputs == [] then [] else Concat(outputs[..|outputs| - 1]) + outputs[|outputs| - 1]
  }

  lemma ConcatAppend(outputs: seq<seq<Entry>>, last: seq<Entry>)
    ensures Concat(outputs + [last]) == Concat(outputs) + last
  {
    assert (outputs + [last])[..|outputs|] == outputs;
  }

  /** The running state of the loop: the user key in progress and the sequence number last seen for it. */
  ghost predicate Tracks(input: seq<Entry>, i: nat, current: Option<UserKey>, lastSequence: nat)
    requires i <= |input|
  {
    if i == 0 then current.None?
    else current == Some(input[i - 1].key.user) && lastSequence == input[i - 1].key.seqno
  }

  /** The drop decision for one entry. */
  method DecideDrop(scan: BaseLevelScan, input: seq<Entry>, i: nat, oldest: nat, current: Option<UserKey>, lastSequence: nat)
    returns (drop: bool)
    requires Sorted(input) && i < |input| && Tracks(input, i, current, lastSequence)
    requires scan.Valid() && (scan.asked.Some? ==> scan.asked.value <= input[i].key.user)
    modifies scan
    ensures scan.Valid() && (scan.asked.Some? ==> scan.asked.value <= input[i].key.user)
    ensures drop == Dropped(input, i, oldest, scan.version, scan.level)
    ensures Survivors(input, i + 1, oldest, scan.version, scan.level) ==
            Survivors(input, i, oldest, scan.version, scan.level) + if drop then [] else [input[i]]
  {
    var key := input[i].key;
    var last := lastSequence;
    if current.None? || key.user != current.value {
      last := MAX_SEQUENCE;
    }
    drop := false;
    if last <= oldest {
      drop := true;
    } else if key.kind.Deletion? && key.seqno <= oldest {
      drop := scan.IsBaseLevelForKey(key.user);
    }
  }

  // ----- where an output ends -----

  /** Entry i does not fill its output, and no entry after it and before j must start another. */
  predicate Quiet(stop: seq<bool>, full: seq<bool>, i: nat, j: nat) {
    i < |full| && !full[i] && forall k :: i < k < j && k < |stop| ==> !stop[k]
  }

  /** One output: the entries at these places, with no reason to end it before the last. */
  ghost predicate Piece(input: seq<Entry>, stop: seq<bool>, full: seq<bool>, output: seq<Entry>, places: seq<nat>) {
    && |places| == |output| > 0
    && (forall p :: 0 <= p < |places| ==> places[p] < |input| && output[p] == input[places[p]])
    && forall p :: 0 < p < |places| ==> places[p - 1] < places[p] && Quiet(stop, full, places[p - 1], places[p] + 1)
  }

  function LastPlace(marks: seq<seq<nat>>): nat {
    if marks == [] || marks[|marks| - 1] == [] then 0 else marks[|marks| - 1][|marks[|marks| - 1]| - 1]
  }

  /** Output m starts after the one before it, which had to end. */
  predicate Boundary(stop: seq<bool>, full: seq<bool>, marks: seq<seq<nat>>, m: nat) {
    && m < |marks| && marks[m] != []
    && LastPlace(marks[..m]) < marks[m][0] && !Quiet(stop, full, LastPlace(marks[..m]), marks[m][0] + 1)
  }

  /** Outputs of entries before i; each but the last ended for a reason. */
  ghost predicate CutRight(input: seq<Entry>, stop: seq<bool>, full: seq<bool>, outputs: seq<seq<Entry>>, marks: seq<seq<nat>>, i: nat) {
    && |marks| == |outputs| && (forall m :: 0 <= m < |outputs| ==> Piece(input, stop, full, outputs[m], marks[m]))
    && (forall m: nat :: 0 < m < |outputs| ==> Boundary(stop, full, marks, m))
    && (marks != [] ==> LastPlace(marks) < i)
  }

  /** The outputs with the open one. */
  function Pieces(outputs: seq<seq<Entry>>, builder: Option<seq<Entry>>): seq<seq<Entry>> {
    outputs + if builder.Some? then [builder.value] else []
  }

  /** With the entries before i written, an output is open exactly if nothing before j has ended the last one. */
  ghost predicate Cutting(input: seq<Entry>, stop: seq<bool>, full: seq<bool>, outputs: seq<seq<Entry>>, builder: Option<seq<Entry>>,
                          marks: seq<seq<nat>>, i: nat, j: nat) {
    && CutRight(input, stop, full, Pieces(outputs, builder), marks, i)
    && (builder.Some? <==> marks != [] && Quiet(stop, full, LastPlace(marks), j))
  }

  lemma StartsOutput(input: seq<Entry>, stop: seq<bool>, full: seq<bool>, outputs: seq<seq<Entry>>, marks: seq<seq<nat>>, i: nat)
    requires CutRight(input, stop, full, outputs, marks, i) && i < |input|
    requires marks != [] ==> !Quiet(stop, full, LastPlace(marks), i + 1)
    ensures CutRight(input, stop, full, outputs + [[input[i]]], marks + [[i]], i + 1)
    ensures LastPlace(marks + [[i]]) == i
  {
    var next := marks + [[i]];
    forall m: nat | 0 < m < |next| ensures Boundary(stop, full, next, m) {
      if m < |marks| {
        assert Boundary(stop, full, marks, m) && next[..m] == marks[..m];
      } else {
        assert next[..m] == marks;
      }
    }
  }

  lemma JoinsOutput(input: seq<Entry>, stop: seq<bool>, full: seq<bool>, outputs: seq<seq<Entry>>, kept: seq<Entry>,
                    front: seq<seq<nat>>, last: seq<nat>, i: nat)
    requires CutRight(input, stop, full, outputs + [kept], front + [last], i) && i < |input|
    requires last != [] && Quiet(stop, full, last[|last| - 1], i + 1)
    ensures CutRight(input, stop, full, outputs + [kept + [input[i]]], front + [last + [i]], i + 1)
  {
    var n, marks, next := |outputs|, front + [last], front + [last + [i]];
    assert (outputs + [kept])[n] == kept && marks[n] == last;
    assert LastPlace(marks) == last[|last| - 1] && LastPlace(next) == i;
    PieceGrows(input, stop, full, kept, last, i);
    forall m | 0 <= m < n ensures Piece(input, stop, full, outputs[m], front[m]) {
      assert (outputs + [kept])[m] == outputs[m] && marks[m] == front[m];
    }
    forall m: nat | 0 < m <= n ensures Boundary(stop, full, next, m) {
      SameBoundary(stop, full, front, last, i, m);
    }
  }

  lemma SameBoundary(stop: seq<bool>, full: seq<bool>, front: seq<seq<nat>>, last: seq<nat>, i: nat, m: nat)
    requires m <= |front| && last != [] && Boundary(stop, full, front + [last], m)
    ensures Boundary(stop, full, front + [last + [i]], m)
  {
    assert (front + [last + [i]])[..m] == (front + [last])[..m] == front[..m];
    assert m == |front| ==> (front + [last + [i]])[m][0] == last[0];
  }

  lemma PieceGrows(input: seq<Entry>, stop: seq<bool>, full: seq<bool>, kept: seq<Entry>, places: seq<nat>, i: nat)
    requires Piece(input, stop, full, kept, places) && i < |input|
    requires places[|places| - 1] < i && Quiet(stop, full, places[|places| - 1], i + 1)
    ensures Piece(input, stop, full, kept + [input[i]], places + [i])
  {
  }

  lemma JoinsLast(input: seq<Entry>, stop: seq<bool>, full: seq<bool>, outputs: seq<seq<Entry>>, kept: seq<Entry>, marks: seq<seq<nat>>, i: nat)
    returns (next: seq<seq<nat>>)
    requires CutRight(input, stop, full, outputs + [kept], marks, i) && i < |input|
    requires Quiet(stop, full, LastPlace(marks), i + 1)
    ensures CutRight(input, stop, full, outputs + [kept + [input[i]]], next, i + 1) && next != [] && LastPlace(next) == i
  {
    var n := |outputs|;
    assert Piece(input, stop, full, (outputs + [kept])[n], marks[n]);
    var front, last := marks[..n], marks[n];
    assert marks == front + [last];
    JoinsOutput(input, stop, full, outputs, kept, front, last, i);
    next := front + [last + [i]];
  }

  /** An entry that survives, in the open output or a new one. */
  lemma PlacesEntry(input: seq<Entry>, stop: seq<bool>, full: seq<bool>, outputs: seq<seq<Entry>>, builder: Option<seq<Entry>>,
                    marks: seq<seq<nat>>, i: nat, output: seq<Entry>) returns (next: seq<seq<nat>>)
    requires Cutting(input, stop, full, outputs, builder, marks, i, i + 1) && i < |input|
    requires output == (if builder.Some? then builder.value else []) + [input[i]]
    ensures CutRight(input, stop, full, outputs + [output], next, i + 1) && next != [] && LastPlace(next) == i
  {
    if builder.Some? {
      next := JoinsLast(input, stop, full, outputs, builder.value, marks, i);
    } else {
      assert Pieces(outputs, builder) == outputs && output == [input[i]];
      StartsOutput(input, stop, full, outputs, marks, i);
      next := marks + [[i]];
    }
  }

  /** The output it joins is then open unless the entry fills it. */
  lemma KeepsEntry(input: seq<Entry>, stop: seq<bool>, full: seq<bool>, outputs: seq<seq<Entry>>, builder: Option<seq<Entry>>,
                   marks: seq<seq<nat>>, i: nat, output: seq<Entry>) returns (next: seq<seq<nat>>)
    requires Cutting(input, stop, full, outputs, builder, marks, i, i + 1) && i < |input| == |full|
    requires output == (if builder.Some? then builder.value else []) + [input[i]]
    ensures if full[i] then Cutting(input, stop, full, outputs + [output], None, next, i + 1, i + 1)
            else Cutting(input, stop, full, outputs, Some(output), next, i + 1, i + 1)
  {
    next := PlacesEntry(input, stop, full, outputs, builder, marks, i, output);
    assert Pieces(outputs, Some(output)) == Pieces(outputs + [output], None) == outputs + [output];
  }

  // ----- the main loop -----

  /** What has been written so far: the finished outputs and the open builder. */
  ghost function Written(outputs: seq<seq<Entry>>, builder: Option<seq<Entry>>): seq<Entry> {
    Concat(outputs) + if builder.Some? then builder.value else []
  }

  ghost predicate NonEmpty(outputs: seq<seq<Entry>>, builder: Option<seq<Entry>>) {
    (forall o :: o in outputs ==> |o| > 0) && (builder.Some? ==> |builder.value| > 0)
  }

  /** FinishCompactionOutputFile, when an output is open. */
  method Finish(outputs: seq<seq<Entry>>, builder: Option<seq<Entry>>) returns (done: seq<seq<Entry>>)
    requires NonEmpty(outputs, builder)
    ensures Concat(done) == Written(outputs, builder) && NonEmpty(done, None) && done == Pieces(outputs, builder)
  {
    if builder.Some? {
      ConcatAppend(outputs, builder.value);
      done := outputs + [builder.value];
    } else {
      done := outputs;
    }
  }

  /** What the loop has written before entry i, with the tests up to j made. */
  ghost predicate WritesSo(input: seq<Entry>, stop: seq<bool>, full: seq<bool>, outputs: seq<seq<Entry>>, builder: Option<seq<Entry>>,
                           marks: seq<seq<nat>>, i: nat, j: nat) {
    NonEmpty(outputs, builder) && Cutting(input, stop, full, outputs, builder, marks, i, j)
  }

  lemma QuietNext(stop: seq<bool>, full: seq<bool>, last: nat, i: nat)
    requires last < i < |stop|
    ensures Quiet(stop, full, last, i + 1) <==> Quiet(stop, full, last, i) && !stop[i]
  {
  }

  /** Up to the test at entry i nothing has been written after the open output. */
  lemma StopsHere(input: seq<Entry>, stop: seq<bool>, full: seq<bool>, outputs: seq<seq<Entry>>, builder: Option<seq<Entry>>,
                  marks: seq<seq<nat>>, i: nat)
    requires Cutting(input, stop, full, outputs, builder, marks, i, i) && i < |input| == |stop|
    ensures if stop[i] then Cutting(input, stop, full, Pieces(outputs, builder), None, marks, i, i + 1)
            else Cutting(input, stop, full, outputs, builder, marks, i, i + 1)
  {
    assert Pieces(Pieces(outputs, builder), None) == Pieces(outputs, builder);
    if marks != [] {
      QuietNext(stop, full, LastPlace(marks), i);
    }
  }

  /** ShouldStopBefore at entry i ends the open output. */
  method StopBefore(input: seq<Entry>, stop: seq<bool>, ghost full: seq<bool>, outputs: seq<seq<Entry>>, builder: Option<seq<Entry>>,
                    ghost marks: seq<seq<nat>>, i: nat)
    returns (done: seq<seq<Entry>>, open: Option<seq<Entry>>)
    requires WritesSo(input, stop, full, outputs, builder, marks, i, i) && i < |input| == |stop|
    ensures WritesSo(input, stop, full, done, open, marks, i, i + 1) && Written(done, open) == Written(outputs, builder)
  {
    StopsHere(input, stop, full, outputs, builder, marks, i);
    done, open := outputs, builder;
    if stop[i] && builder.Some? {
      done := Finish(outputs, builder);
      open := None;
    }
  }

  /** A surviving entry is added to the open output or a new one, which ends when it is full. */
  method AddEntry(input: seq<Entry>, ghost stop: seq<bool>, full: seq<bool>, outputs: seq<seq<Entry>>, builder: Option<seq<Entry>>,
                  ghost marks: seq<seq<nat>>, i: nat)
    returns (done: seq<seq<Entry>>, open: Option<seq<Entry>>, ghost next: seq<seq<nat>>)
    requires WritesSo(input, stop, full, outputs, builder, marks, i, i + 1) && i < |input| == |full|
    ensures WritesSo(input, stop, full, done, open, next, i + 1, i + 1)
    ensures Written(done, open) == Written(outputs, builder) + [input[i]]
  {
    var kept := if builder.Some? then builder.value else [];
    assert Concat(outputs) + (kept + [input[i]]) == (Concat(outputs) + kept) + [input[i]];
    done, open := outputs, Some(kept + [input[i]]);
    next := KeepsEntry(input, stop, full, outputs, builder, marks, i, open.value);
    if full[i] {
      done := Finish(outputs, open);
      open := None;
    }
  }

  /** What the main loop has written before entry i: the survivors, in outputs that end where they must. */
  ghost predicate WroteSurvivors(v: Version, level: nat, oldest: nat, input: seq<Entry>, stop: seq<bool>, full: seq<bool>,
                                 outputs: seq<seq<Entry>>, builder: Option<seq<Entry>>, marks: seq<seq<nat>>, i: nat) {
    && i <= |input| && WritesSo(input, stop, full, outputs, builder, marks, i, i)
    && Written(outputs, builder) == Survivors(input, i, oldest, v, level)
  }

  /** The loop body: perhaps end the open output, decide, and keep or drop the entry. */
  method NextEntry(scan: BaseLevelScan, input: seq<Entry>, i: nat, oldest: nat, stop: seq<bool>, full: seq<bool>,
                   current: Option<UserKey>, lastSequence: nat, outputs: seq<seq<Entry>>, builder: Option<seq<Entry>>, ghost marks: seq<seq<nat>>)
    returns (done: seq<seq<Entry>>, open: Option<seq<Entry>>, ghost next: seq<seq<nat>>)
    requires Sorted(input) && i < |input| == |stop| == |full| && Tracks(input, i, current, lastSequence)
    requires scan.Valid() && (scan.asked.Some? ==> scan.asked.value <= input[i].key.user)
    requires WroteSurvivors(scan.version, scan.level, oldest, input, stop, full, outputs, builder, marks, i)
    modifies scan
    ensures scan.Valid() && (scan.asked.Some? ==> scan.asked.value <= input[i].key.user)
    ensures WroteSurvivors(scan.version, scan.level, oldest, input, stop, full, done, open, next, i + 1)
  {
    next := marks;
    done, open := StopBefore(input, stop, full, outputs, builder, marks, i);
    var drop := DecideDrop(scan, input, i, oldest, current, lastSequence);
    if !drop {
      done, open, next := AddEntry(input, stop, full, done, open, marks, i);
    }
  }

  /**
   The main loop of DoCompactionWork. `stop[i]` is the outcome of
   ShouldStopBefore at entry `i` and `full[i]` that of the output size test;
   they alone choose where one output ends and the next begins.
   */
  method DoCompactionWork(v: Version, level: nat, input: seq<Entry>, oldest: nat, stop: seq<bool>, full: seq<bool>)
    returns (outputs: seq<seq<Entry>>)
    requires forall l :: level + 2 <= l < NUM_LEVELS ==> Disjoint(v[l]) && Ordered(v[l])
    requires Sorted(input) && |stop| == |input| == |full|
    ensures Concat(outputs) == Survivors(input, |input|, oldest, v, level)
    ensures forall o :: o in outputs ==> |o| > 0
    ensures exists marks :: CutRight(input, stop, full, outputs, marks, |input|)
  {
    var scan := new BaseLevelScan(v, level);
    var current: Option<UserKey>, lastSequence := None, MAX_SEQUENCE;
    var builder: Option<seq<Entry>> := None;
    outputs := [];
    ghost var marks: seq<seq<nat>> := [];
    for i := 0 to |input|
      invariant scan.Valid() && scan.version == v && scan.level == level
      invariant scan.asked.Some? ==> i > 0 && scan.asked.value <= input[i - 1].key.user
      invariant Tracks(input, i, current, lastSequence)
      invariant WroteSurvivors(v, level, oldest, input, stop, full, outputs, builder, marks, i)
    {
      assert i > 0 ==> Before(input[i - 1].key, input[i].key);
      outputs, builder, marks := NextEntry(scan, input, i, oldest, stop, full, current, lastSequence, outputs, builder, marks);
      current, lastSequence := Some(input[i].key.user), input[i].key.seqno;
    }
    outputs := Finish(outputs, builder);
    assert CutRight(input, stop, full, outputs, marks, |input|);
  }

  // ----- what is kept -----

  /** Some snapshot from the oldest on reads this entry, as far as the inputs go. */
  ghost predicate ReadBySome(input: seq<Entry>, oldest: nat, e: Entry) {
    exists snapshot :: snapshot >= oldest && Newest(Elements(input), e.key.user, snapshot, e)
  }

  lemma HiddenIff(input: seq<Entry>, i: nat, oldest: nat)
    requires Sorted(input) && i < |input| && oldest < MAX_SEQUENCE
    ensures Hidden(input, i, oldest) <==>
      exists j :: 0 <= j < i && input[j].key.user == input[i].key.user && input[j].key.seqno <= oldest
  {
    if j: nat :| j < i && input[j].key.user == input[i].key.user && input[j].key.seqno <= oldest {
      LaterAreHidden(input, j, i, oldest);
    }
  }

  lemma ReadIffNotHidden(input: seq<Entry>, i: nat, oldest: nat)
    requires Sorted(input) && Distinct(Elements(input)) && i < |input| && oldest < MAX_SEQUENCE
    ensures ReadBySome(input, oldest, input[i]) <==> !Hidden(input, i, oldest)
  {
    HiddenIff(input, i, oldest);
    var e := input[i];
    assert e in Elements(input);
    if Hidden(input, i, oldest) {
      var j :| 0 <= j < i && input[j].key.user == e.key.user && input[j].key.seqno <= oldest;
      assert input[j] in Elements(input) && Before(input[j].key, e.key);
    } else {
      var snapshot := if e.key.seqno > oldest then e.key.seqno else oldest;
      forall x | x in input && Candidate(x, e.key.user, snapshot) ensures x.key.seqno <= e.key.seqno {
        var j :| 0 <= j < |input| && input[j] == x;
        assert i < j ==> Before(e.key, x.key);
      }
      assert Newest(Elements(input), e.key.user, snapshot, e);
    }
  }

  /**
   Exactly what a compaction keeps: the entries some snapshot from the oldest on
   may still read, less the deletions old enough for all of them that no deeper
   file needs.
   */
  lemma KeptIff(input: seq<Entry>, oldest: nat, v: Version, level: nat, e: Entry)
    requires Sorted(input) && Distinct(Elements(input)) && oldest < MAX_SEQUENCE
    ensures e in Survivors(input, |input|, oldest, v, level) <==>
      && ReadBySome(input, oldest, e)
      && !(e.key.kind.Deletion? && e.key.seqno <= oldest
           && forall l, f :: level + 2 <= l < NUM_LEVELS && f in v[l] ==> !(f.smallest.user <= e.key.user <= f.largest.user))
  {
    forall i: nat | i < |input| ensures ReadBySome(input, oldest, input[i]) <==> !Hidden(input, i, oldest) {
      ReadIffNotHidden(input, i, oldest);
    }
    BaseLevelIff(v, level, e.key.user);
  }

  lemma BaseLevelIff(v: Version, level: nat, user: UserKey)
    ensures BaseLevel(v, level, user) <==>
      forall l, f :: level + 2 <= l < NUM_LEVELS && f in v[l] ==> !(f.smallest.user <= user <= f.largest.user)
  {
    if BaseLevel(v, level, user) {
      forall l, f | level + 2 <= l < NUM_LEVELS && f in v[l] ensures !(f.smallest.user <= user <= f.largest.user) {
        var i :| 0 <= i < |v[l]| && v[l][i] == f;
        assert !Covers(v[l][i], user);
      }
    } else {
      var l, i :| level + 2 <= l < NUM_LEVELS && 0 <= i < |v[l]| && Covers(v[l][i], user);
      assert v[l][i] in v[l];
    }
  }

  // ----- reads before and after -----

  ghost predicate SameViews(before: set<Entry>, after: set<Entry>, oldest: nat) {
    forall user, snapshot :: snapshot >= oldest ==> View(before, user, snapshot) == View(after, user, snapshot)
  }

  /** A value outside the inputs that only the dropped tombstone `t` was hiding from the oldest snapshot. */
  ghost predicate Resurfaces(rest: set<Entry>, t: Entry, oldest: nat, x: Entry) {
    Newest(rest, t.key.user, oldest, x) && x.key.seqno < t.key.seqno && x.key.kind.Value?
  }

  ghost predicate NothingResurfaces(input: seq<Entry>, rest: set<Entry>, oldest: nat, v: Version, level: nat) {
    forall i, x :: 0 <= i < |input| && ObsoleteTombstone(input, i, oldest, v, level) ==> !Resurfaces(rest, input[i], oldest, x)
  }

  /** The first entry for its user key that is old enough decides the fate of the later ones. */
  lemma LaterAreHidden(input: seq<Entry>, i: nat, j: nat, oldest: nat)
    requires Sorted(input) && i < j < |input|
    requires input[i].key.user == input[j].key.user && input[i].key.seqno <= oldest
    ensures Hidden(input, j, oldest)
  {
    if i < j - 1 {
      assert Before(input[i].key, input[j - 1].key) && Before(input[j - 1].key, input[j].key);
    }
  }

  /** A dropped entry has a surviving newer one, or an obsolete tombstone, that hides it. */
  lemma Hider(input: seq<Entry>, j: nat, oldest: nat, v: Version, level: nat) returns (i: nat)
    requires Sorted(input) && oldest < MAX_SEQUENCE && j < |input| && Dropped(input, j, oldest, v, level)
    ensures i <= j && input[i].key.user == input[j].key.user && input[j].key.seqno <= input[i].key.seqno <= oldest
    ensures !Hidden(input, i, oldest)
    ensures ObsoleteTombstone(input, i, oldest, v, level) || !Dropped(input, i, oldest, v, level)
  {
    if Hidden(input, j, oldest) {
      assert Before(input[j - 1].key, input[j].key);
      if Dropped(input, j - 1, oldest, v, level) {
        i := Hider(input, j - 1, oldest, v, level);
      } else {
        i := j - 1;
      }
    } else {
      i := j;
    }
  }

  /** A dropped entry that some read found: it was a tombstone, and nothing shows in its stead. */
  lemma DroppedIsUnseen(input: seq<Entry>, rest: set<Entry>, oldest: nat, v: Version, level: nat, j: nat, snapshot: nat)
    requires Sorted(input) && oldest < MAX_SEQUENCE && Distinct(Elements(input) + rest) && oldest <= snapshot && j < |input|
    requires NothingResurfaces(input, rest, oldest, v, level)
    requires Newest(Elements(input) + rest, input[j].key.user, snapshot, input[j])
    requires input[j] !in Elements(Survivors(input, |input|, oldest, v, level)) + rest
    ensures input[j].key.kind.Deletion?
    ensures View(Elements(Survivors(input, |input|, oldest, v, level)) + rest, input[j].key.user, snapshot) == None
  {
    var after, user := Elements(Survivors(input, |input|, oldest, v, level)) + rest, input[j].key.user;
    var i := Hider(input, j, oldest, v, level);
    assert input[i] in Elements(input) + rest && input[i] == input[j];
    var left := FindNewest(after, user, snapshot);
    ViewIs(after, user, snapshot, left);
    if left.Some? && left.value.key.kind.Value? {
      OnlyRestRemains(input, j, rest, snapshot, oldest, v, level, left.value);
      assert Resurfaces(rest, input[j], oldest, left.value);
    }
  }

  /** If nothing resurfaces, no read at or after the oldest snapshot changes. */
  lemma DroppingIsInvisible(input: seq<Entry>, rest: set<Entry>, oldest: nat, v: Version, level: nat)
    requires Sorted(input) && oldest < MAX_SEQUENCE && Distinct(Elements(input) + rest)
    requires NothingResurfaces(input, rest, oldest, v, level)
    ensures SameViews(Elements(input) + rest, Elements(Survivors(input, |input|, oldest, v, level)) + rest, oldest)
  {
    var before, after := Elements(input) + rest, Elements(Survivors(input, |input|, oldest, v, level)) + rest;
    forall user, snapshot | snapshot >= oldest ensures View(before, user, snapshot) == View(after, user, snapshot) {
      var found := FindNewest(before, user, snapshot);
      ViewIs(before, user, snapshot, found);
      if found.None? || found.value in after {
        ViewIs(after, user, snapshot, found);
      } else {
        var j :| 0 <= j < |input| && input[j] == found.value;
        DroppedIsUnseen(input, rest, oldest, v, level, j, snapshot);
      }
    }
  }

  /** A survivor is never older than an entry of its key that is itself old enough for every snapshot. */
  lemma SurvivorsAreNewer(input: seq<Entry>, j: nat, oldest: nat, v: Version, level: nat, x: Entry)
    requires Sorted(input) && j < |input| && input[j].key.seqno <= oldest && Dropped(input, j, oldest, v, level)
    requires x in Survivors(input, |input|, oldest, v, level) && x.key.user == input[j].key.user
    ensures Before(x.key, input[j].key)
  {
    var m :| 0 <= m < |input| && input[m] == x && !Dropped(input, m, oldest, v, level);
    if j < m {
      LaterAreHidden(input, j, m, oldest);
    }
  }

  /** Once a newest-visible tombstone is gone, what shows instead lies outside the inputs. */
  lemma OnlyRestRemains(input: seq<Entry>, j: nat, rest: set<Entry>, snapshot: nat, oldest: nat,
                        v: Version, level: nat, x: Entry)
    requires Sorted(input) && j < |input| && oldest <= snapshot
    requires Distinct(Elements(input) + rest)
    requires Newest(Elements(input) + rest, input[j].key.user, snapshot, input[j])
    requires Dropped(input, j, oldest, v, level) && input[j].key.seqno <= oldest && input[j] !in rest
    requires Newest(Elements(Survivors(input, |input|, oldest, v, level)) + rest, input[j].key.user, snapshot, x)
    ensures x.key.seqno < input[j].key.seqno
    ensures Newest(rest, input[j].key.user, oldest, x)
  {
    assert x in Survivors(input, |input|, oldest, v, level) ==> x in Elements(input);
    if x in Survivors(input, |input|, oldest, v, level) {
      SurvivorsAreNewer(input, j, oldest, v, level, x);
      assert false;
    }
  }

  /** An obsolete tombstone is the newest input entry of its key that the oldest snapshot may see. */
  lemma ObsoleteIsNewest(input: seq<Entry>, i: nat, oldest: nat, v: Version, level: nat)
    requires Sorted(input) && oldest < MAX_SEQUENCE
    requires i < |input| && ObsoleteTombstone(input, i, oldest, v, level)
    ensures Newest(Elements(input), input[i].key.user, oldest, input[i])
  {
    forall e | e in input && Candidate(e, input[i].key.user, oldest) ensures e.key.seqno <= input[i].key.seqno {
      var m :| 0 <= m < |input| && input[m] == e;
      if m < i {
        LaterAreHidden(input, m, i, oldest);
      }
    }
  }

  /** Below the oldest snapshot a dropped tombstone of that age is the newest of its key, and nothing of it survives. */
  lemma TombstoneCoversAll(input: seq<Entry>, i: nat, oldest: nat, v: Version, level: nat, e: Entry)
    requires Sorted(input) && oldest < MAX_SEQUENCE && i < |input| && ObsoleteTombstone(input, i, oldest, v, level)
    requires e in input && Candidate(e, input[i].key.user, oldest)
    ensures e.key.seqno <= input[i].key.seqno && e !in Survivors(input, |input|, oldest, v, level)
  {
    forall m | 0 <= m < |input| && input[m] == e ensures m >= i && Dropped(input, m, oldest, v, level) {
      if m < i {
        LaterAreHidden(input, m, i, oldest);
      } else if i < m {
        LaterAreHidden(input, i, m, oldest);
      }
    }
    var m :| 0 <= m < |input| && input[m] == e;
  }

  lemma OlderShows(all: set<Entry>, kept: set<Entry>, rest: set<Entry>, t: Entry, oldest: nat, x: Entry)
    requires kept <= all && t in all && Distinct(all + rest) && Resurfaces(rest, t, oldest, x)
    requires t.key.kind.Deletion? && t.key.seqno <= oldest
    requires forall e :: e in all && Candidate(e, t.key.user, oldest) ==> e.key.seqno <= t.key.seqno && e !in kept
    ensures View(all + rest, x.key.user, oldest) == None && View(kept + rest, x.key.user, oldest) == Some(x.value)
  {
    assert Newest(all + rest, x.key.user, oldest, t);
    ViewIs(all + rest, x.key.user, oldest, Some(t));
    assert Newest(kept + rest, x.key.user, oldest, x);
    ViewIs(kept + rest, x.key.user, oldest, Some(x));
  }

  /** If something resurfaces, the oldest snapshot reads a value it did not read before. */
  lemma ResurfacingIsVisible(input: seq<Entry>, i: nat, rest: set<Entry>, x: Entry, oldest: nat, v: Version, level: nat)
    requires Sorted(input) && Distinct(Elements(input) + rest) && oldest < MAX_SEQUENCE
    requires i < |input| && ObsoleteTombstone(input, i, oldest, v, level)
    requires Resurfaces(rest, input[i], oldest, x)
    ensures View(Elements(input) + rest, x.key.user, oldest) == None
    ensures View(Elements(Survivors(input, |input|, oldest, v, level)) + rest, x.key.user, oldest) == Some(x.value)
  {
    forall e | e in input && Candidate(e, input[i].key.user, oldest)
      ensures e.key.seqno <= input[i].key.seqno && e !in Survivors(input, |input|, oldest, v, level)
    {
      TombstoneCoversAll(input, i, oldest, v, level, e);
    }
    OlderShows(Elements(input), Elements(Survivors(input, |input|, oldest, v, level)), rest, input[i], oldest, x);
  }

  /** Exactly when a compaction changes no read of a live or later snapshot. */
  lemma DroppingIsInvisibleIff(input: seq<Entry>, rest: set<Entry>, oldest: nat, v: Version, level: nat)
    requires Sorted(input) && oldest < MAX_SEQUENCE && Distinct(Elements(input) + rest)
    ensures SameViews(Elements(input) + rest, Elements(Survivors(input, |input|, oldest, v, level)) + rest, oldest)
            <==> NothingResurfaces(input, rest, oldest, v, level)
  {
    if NothingResurfaces(input, rest, oldest, v, level) {
      DroppingIsInvisible(input, rest, oldest, v, level);
    } else {
      var i, x :| 0 <= i < |input| && ObsoleteTombstone(input, i, oldest, v, level) && Resurfaces(rest, input[i], oldest, x);
      ResurfacingIsVisible(input, i, rest, x, oldest, v, level);
    }
  }

  /** With the oldest snapshot at the largest sequence number rule (A) drops every entry. */
  lemma {:induction false} LargestSnapshotDropsAll(input: seq<Entry>, n: nat, oldest: nat, v: Version, level: nat)
    requires n <= |input| && oldest >= MAX_SEQUENCE
    requires forall e :: e in input ==> e.key.seqno <= MAX_SEQUENCE
    ensures Survivors(input, n, oldest, v, level) == []
  {
    if n > 0 {
      LargestSnapshotDropsAll(input, n - 1, oldest, v, level);
      assert Dropped(input, n - 1, oldest, v, level);
    }
  }
}
