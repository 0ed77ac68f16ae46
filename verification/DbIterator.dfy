/**
 DBIter: an iterator over internal entries, in both directions, is a cursor
 over the keys a snapshot sees (db_iter.cc).
 */
module DbIterator {
  import opened InternalKeys

  // ----- which entries are shown -----

  predicate Visible(es: seq<Entry>, snapshot: nat, i: int)
    requires 0 <= i < |es|
  {
    es[i].key.seqno <= snapshot
  }

  /** The first visible entry of its user key, and a value: what the iterator stops at. */
  ghost predicate Yields(es: seq<Entry>, snapshot: nat, i: int)
    requires 0 <= i < |es|
  {
    && Visible(es, snapshot, i) && es[i].key.kind.Value?
    && forall j :: 0 <= j < i && Visible(es, snapshot, j) ==> es[j].key.user != es[i].key.user
  }

  /** What the snapshot reads for a user key. */
  ghost function Shown(es: seq<Entry>, snapshot: nat, user: UserKey): Option<Bytes> {
    View(Elements(es), user, snapshot)
  }

  ghost predicate Listing(es: seq<Entry>) {
    Sorted(es) && Distinct(Elements(es))
  }

  /** A yielding entry carries exactly what the snapshot reads. */
  lemma YieldIsShown(es: seq<Entry>, snapshot: nat, i: nat)
    requires Listing(es) && i < |es| && Yields(es, snapshot, i)
    ensures Shown(es, snapshot, es[i].key.user) == Some(es[i].value)
  {
    var user := es[i].key.user;
    forall x | x in es && Candidate(x, user, snapshot) ensures x.key.seqno <= es[i].key.seqno {
      var j :| 0 <= j < |es| && es[j] == x;
      assert j > i ==> Before(es[i].key, es[j].key);
    }
    assert es[i] in Elements(es);
    ViewIs(Elements(es), user, snapshot, Some(es[i]));
  }

  /** Whatever the snapshot reads is carried by a yielding entry. */
  lemma ShownIsYield(es: seq<Entry>, snapshot: nat, user: UserKey) returns (i: nat)
    requires Listing(es) && Shown(es, snapshot, user).Some?
    ensures i < |es| && Yields(es, snapshot, i) && es[i].key.user == user
  {
    var found := FindNewest(Elements(es), user, snapshot);
    ViewIs(Elements(es), user, snapshot, found);
    i :| 0 <= i < |es| && es[i] == found.value;
    forall j | 0 <= j < i && Visible(es, snapshot, j) ensures es[j].key.user != user {
      assert Before(es[j].key, es[i].key) && es[j] in Elements(es);
    }
  }

  /** No key strictly between `lo` and `hi` is shown; an absent bound is unbounded. */
  ghost predicate NothingBetween(es: seq<Entry>, snapshot: nat, lo: Option<UserKey>, hi: Option<UserKey>) {
    forall k :: (lo.Some? ==> lo.value < k) && (hi.Some? ==> k < hi.value) ==> Shown(es, snapshot, k) == None
  }

  lemma NothingBetweenYields(es: seq<Entry>, snapshot: nat, lo: Option<UserKey>, hi: Option<UserKey>)
    requires Listing(es)
    requires forall i :: 0 <= i < |es| && Yields(es, snapshot, i) ==>
      (lo.Some? && es[i].key.user <= lo.value) || (hi.Some? && es[i].key.user >= hi.value)
    ensures NothingBetween(es, snapshot, lo, hi)
  {
    forall k | (lo.Some? ==> lo.value < k) && (hi.Some? ==> k < hi.value) ensures Shown(es, snapshot, k) == None {
      if Shown(es, snapshot, k).Some? {
        var i := ShownIsYield(es, snapshot, k);
        assert false;
      }
    }
  }

  lemma UsersAscend(es: seq<Entry>, i: nat, j: nat)
    requires Sorted(es) && i <= j < |es|
    ensures es[i].key.user <= es[j].key.user
  {
  }

  // ----- the forward scan -----

  /** The skip key hides, or lies below, every visible entry before `i`, and no visible entry from `i` on is below it. */
  ghost predicate Skipped(es: seq<Entry>, snapshot: nat, i: int, skip: Option<UserKey>)
    requires 0 <= i <= |es|
  {
    && (forall j :: 0 <= j < i && Visible(es, snapshot, j) ==>
          (skip.Some? && es[j].key.user <= skip.value) || i == |es| || es[j].key.user < es[i].key.user)
    && (forall j :: i <= j < |es| && Visible(es, snapshot, j) && skip.Some? ==> skip.value <= es[j].key.user)
  }

  /** Nothing from `start` up to `i` is to be shown, given that keys up to `past` are skipped. */
  ghost predicate NoYield(es: seq<Entry>, snapshot: nat, start: int, i: int, past: Option<UserKey>)
    requires 0 <= start <= i <= |es|
  {
    forall j :: start <= j < i && Yields(es, snapshot, j) ==> past.Some? && es[j].key.user <= past.value
  }

  /** The skip key is the one given at the start, or the key of a visible entry since. */
  ghost predicate SkipFrom(es: seq<Entry>, snapshot: nat, start: int, i: int, past: Option<UserKey>, skip: Option<UserKey>)
    requires 0 <= start <= i <= |es|
  {
    skip == past || exists j :: start <= j < i && Visible(es, snapshot, j) && Some(es[j].key.user) == skip
  }

  ghost predicate Scanning(es: seq<Entry>, snapshot: nat, start: int, i: int, past: Option<UserKey>, skip: Option<UserKey>)
    requires 0 <= start <= i <= |es|
  {
    Skipped(es, snapshot, i, skip) && NoYield(es, snapshot, start, i, past) && SkipFrom(es, snapshot, start, i, past, skip)
  }

  /** One entry is passed over when it is not visible, is hidden, or is a deletion, which becomes the skip key. */
  ghost predicate Passes(es: seq<Entry>, snapshot: nat, i: int, skip: Option<UserKey>, skip': Option<UserKey>)
    requires 0 <= i < |es|
  {
    if !Visible(es, snapshot, i) then skip' == skip
    else if es[i].key.kind.Deletion? then skip' == Some(es[i].key.user)
    else skip' == skip && skip.Some? && es[i].key.user <= skip.value
  }

  lemma PassKeepsSkipped(es: seq<Entry>, snapshot: nat, i: nat, skip: Option<UserKey>, skip': Option<UserKey>)
    requires Sorted(es) && i < |es| && Skipped(es, snapshot, i, skip) && Passes(es, snapshot, i, skip, skip')
    ensures Skipped(es, snapshot, i + 1, skip')
  {
    forall j: nat | j < |es| ensures j <= i ==> es[j].key.user <= es[i].key.user
      ensures i <= j ==> es[i].key.user <= es[j].key.user
      ensures i + 1 <= j ==> es[i + 1].key.user <= es[j].key.user
    {
      if j <= i {
        UsersAscend(es, j, i);
      } else {
        UsersAscend(es, i, j);
        UsersAscend(es, i + 1, j);
      }
    }
    if i + 1 < |es| {
      UsersAscend(es, i, i + 1);
    }
  }

  lemma PassKeepsNoYield(es: seq<Entry>, snapshot: nat, start: nat, i: nat, past: Option<UserKey>, skip: Option<UserKey>, skip': Option<UserKey>)
    requires Sorted(es) && start <= i < |es| && Scanning(es, snapshot, start, i, past, skip) && Passes(es, snapshot, i, skip, skip')
    ensures NoYield(es, snapshot, start, i + 1, past)
  {
  }

  lemma PassOver(es: seq<Entry>, snapshot: nat, start: nat, i: nat, past: Option<UserKey>, skip: Option<UserKey>, skip': Option<UserKey>)
    requires Sorted(es) && start <= i < |es| && Scanning(es, snapshot, start, i, past, skip) && Passes(es, snapshot, i, skip, skip')
    ensures Scanning(es, snapshot, start, i + 1, past, skip')
  {
    PassKeepsSkipped(es, snapshot, i, skip, skip');
    PassKeepsNoYield(es, snapshot, start, i, past, skip, skip');
    if skip' != skip {
      assert Visible(es, snapshot, i) && Some(es[i].key.user) == skip';
    }
  }

  /** A visible value that is not hidden is the first visible entry of its key, and past the key to pass. */
  lemma StopIsYield(es: seq<Entry>, snapshot: nat, start: nat, i: nat, past: Option<UserKey>, skip: Option<UserKey>)
    requires start <= i < |es| && Skipped(es, snapshot, start, past) && Scanning(es, snapshot, start, i, past, skip)
    requires Visible(es, snapshot, i) && es[i].key.kind.Value? && !(skip.Some? && es[i].key.user <= skip.value)
    ensures Stopped(es, snapshot, start, past, i)
  {
  }

  // ----- the backward scan -----

  /**
   After visiting the entries from `start` down to, not including, `i`: `m` is
   the lowest visible one (or `start + 1`), and nothing above it is to be shown.
   */
  ghost predicate Retreating(es: seq<Entry>, snapshot: nat, start: int, i: int, m: int)
    requires -1 <= i <= start < |es|
  {
    && i < m <= start + 1
    && (m <= start ==> Visible(es, snapshot, m))
    && (forall j :: i < j < m && j <= start ==> !Visible(es, snapshot, j))
    && forall j :: m < j <= start ==> !Yields(es, snapshot, j)
  }

  /** The lowest visible entry moves down within its key, or past a deletion. */
  lemma RetreatOver(es: seq<Entry>, snapshot: nat, start: int, i: nat, m: int)
    requires Sorted(es) && i <= start < |es| && Retreating(es, snapshot, start, i, m)
    requires m <= start && Visible(es, snapshot, i) ==> es[m].key.kind.Deletion? || es[i].key.user >= es[m].key.user
    ensures Retreating(es, snapshot, start, i - 1, if Visible(es, snapshot, i) then i else m)
  {
    if m <= start {
      UsersAscend(es, i, m);
    }
  }

  /** Stopping below a value: it is the first visible entry of its key. */
  lemma RetreatStops(es: seq<Entry>, snapshot: nat, start: int, i: int, m: nat)
    requires Sorted(es) && -1 <= i <= start < |es| && Retreating(es, snapshot, start, i, m) && m <= start
    requires es[m].key.kind.Value? && (i >= 0 ==> es[i].key.user < es[m].key.user)
    ensures Yields(es, snapshot, m)
  {
    forall j: nat | j < m && Visible(es, snapshot, j) ensures es[j].key.user != es[m].key.user {
      if j <= i {
        UsersAscend(es, j, i);
      }
    }
  }

  // ----- the loops -----

  /** The loop of FindNextUserEntry: `i` is the internal iterator, `skip` the key to skip. */
  method ScanForward(es: seq<Entry>, snapshot: nat, start: nat, past: Option<UserKey>) returns (i: nat, found: bool)
    requires Sorted(es) && start < |es| && Skipped(es, snapshot, start, past)
    ensures Stopped(es, snapshot, start, past, i) && found == (i < |es|)
  {
    var skip := past;
    i := start;
    while i < |es|
      invariant start <= i <= |es| && Scanning(es, snapshot, start, i, past, skip)
    {
      if es[i].key.seqno > snapshot {
        PassOver(es, snapshot, start, i, past, skip, skip);
      } else if es[i].key.kind.Deletion? {
        PassOver(es, snapshot, start, i, past, skip, Some(es[i].key.user));
        skip := Some(es[i].key.user);
      } else if skip.Some? && es[i].key.user <= skip.value {
        PassOver(es, snapshot, start, i, past, skip, skip);
      } else {
        StopIsYield(es, snapshot, start, i, past, skip);
        return i, true;
      }
      i := i + 1;
    }
    found := false;
  }

  /** The highest entry to show at or below `start`, `m`, and a position `i` below it with nothing visible between. */
  ghost predicate StoppedBelow(es: seq<Entry>, snapshot: nat, start: int, i: int, m: int) {
    && -1 <= i < m <= start < |es| && Yields(es, snapshot, m)
    && (forall j :: i < j < m ==> !Visible(es, snapshot, j))
    && (i >= 0 ==> es[i].key.user < es[m].key.user)
    && forall j :: m < j <= start ==> !Yields(es, snapshot, j)
  }

  /** The loop of FindPrevUserEntry. */
  method ScanBackward(es: seq<Entry>, snapshot: nat, start: int)
    returns (i: int, savedKey: Option<UserKey>, savedValue: Bytes, ghost m: int)
    requires Sorted(es) && -1 <= start < |es|
    ensures -1 <= i <= start
    ensures savedKey.Some? ==>
      StoppedBelow(es, snapshot, start, i, m) && savedKey == Some(es[m].key.user) && savedValue == es[m].value
    ensures savedKey.None? ==> forall j :: 0 <= j <= start ==> !Yields(es, snapshot, j)
  {
    var valueType := Deletion;
    savedKey, savedValue, i, m := None, [], start, start + 1;
    while i >= 0
      invariant -1 <= i <= start && Retreating(es, snapshot, start, i, m)
      invariant savedKey.Some? == valueType.Value? == (m <= start && es[m].key.kind.Value?)
      invariant savedKey.Some? ==> savedKey == Some(es[m].key.user) && savedValue == es[m].value
      decreases i
    {
      if es[i].key.seqno <= snapshot {
        if valueType.Value? && es[i].key.user < savedKey.value {
          break;
        }
        RetreatOver(es, snapshot, start, i, m);
        m := i;
        valueType := es[i].key.kind;
        if valueType.Deletion? {
          savedKey, savedValue := None, [];
        } else {
          savedKey, savedValue := Some(es[i].key.user), es[i].value;
        }
      } else {
        RetreatOver(es, snapshot, start, i, m);
      }
      i := i - 1;
    }
    if valueType.Value? {
      RetreatStops(es, snapshot, start, i, m);
    }
  }

  /** Prev's direction switch: back up until the key changes. */
  method BackUp(es: seq<Entry>, at: nat) returns (i: int)
    requires Sorted(es) && at < |es|
    ensures -1 <= i < at && (i >= 0 ==> es[i].key.user < es[at].key.user)
    ensures forall j :: i < j < |es| ==> es[j].key.user >= es[at].key.user
  {
    i := at - 1;
    while i >= 0 && es[i].key.user >= es[at].key.user
      invariant -1 <= i < at
      invariant forall j :: i < j <= at ==> es[j].key.user >= es[at].key.user
      decreases i
    {
      i := i - 1;
    }
    forall j: nat | at < j < |es| ensures es[j].key.user >= es[at].key.user {
      UsersAscend(es, at, j);
    }
  }

  // ----- the iterator -----

  datatype Direction = Forward | Reverse

  /** `pos` is the internal iterator: an index, or invalid at either end. */
  class DBIter {
    const es: seq<Entry>
    const snapshot: nat
    var pos: int
    var direction: Direction
    var valid: bool
    var savedKey: Option<UserKey>
    var savedValue: Bytes
    ghost var at: int

    /**
     Moving forward, the internal iterator is at the entry shown; moving
     backward, it is below it with nothing visible in between.
     */
    ghost predicate Valid()
      reads this
    {
      && Listing(es) && -1 <= pos <= |es|
      && (valid ==>
            && 0 <= at < |es| && Yields(es, snapshot, at)
            && (direction.Forward? ==> pos == at)
            && (direction.Reverse? ==>
                  && pos < at && savedKey == Some(es[at].key.user) && savedValue == es[at].value
                  && (forall j :: pos < j < at ==> !Visible(es, snapshot, j))
                  && (pos >= 0 ==> es[pos].key.user < es[at].key.user)))
    }

    constructor (es: seq<Entry>, snapshot: nat)
      requires Listing(es)
      ensures Valid() && !valid && this.es == es && this.snapshot == snapshot
    {
      this.es, this.snapshot := es, snapshot;
      pos, direction, valid, savedKey, savedValue, at := -1, Forward, false, None, [], 0;
    }

    function Key(): (k: UserKey)
      requires Valid() && valid
      reads this
      ensures k == es[at].key.user
    {
      if direction.Forward? then es[pos].key.user else savedKey.value
    }

    function Value(): (v: Bytes)
      requires Valid() && valid
      reads this
      ensures v == es[at].value
    {
      if direction.Forward? then es[pos].value else savedValue
    }

    /** The cursor is on a shown key with its value, and no shown key lies strictly between `lo`, it and `hi`. */
    ghost predicate Rests(lo: Option<UserKey>, hi: Option<UserKey>)
      requires Valid()
      reads this
    {
      if valid then
        && Shown(es, snapshot, Key()) == Some(Value())
        && (lo.Some? ==> lo.value < Key() && NothingBetween(es, snapshot, lo, Some(Key())))
        && (hi.Some? ==> Key() < hi.value && NothingBetween(es, snapshot, Some(Key()), hi))
      else NothingBetween(es, snapshot, lo, hi)
    }

    /** Scan forward to the first entry to show past the skip key. */
    method FindNextUserEntry(past: Option<UserKey>)
      requires Valid() && 0 <= pos < |es| && direction.Forward?
      requires Skipped(es, snapshot, pos, past)
      modifies this
      ensures Valid() && direction.Forward?
      ensures Stopped(es, snapshot, old(pos), past, if valid then at else |es|)
    {
      var i, found := ScanForward(es, snapshot, pos, past);
      pos, savedKey, valid, at := i, None, found, i;
    }

    /** Scan backward to the highest entry to show. */
    method FindPrevUserEntry()
      requires Valid() && pos < |es| && direction.Reverse?
      modifies this
      ensures Valid()
      ensures valid ==> direction.Reverse? && StoppedBelow(es, snapshot, old(pos), pos, at)
      ensures !valid ==> direction.Forward? && forall j :: 0 <= j <= old(pos) ==> !Yields(es, snapshot, j)
    {
      var i, key, value, m := ScanBackward(es, snapshot, pos);
      pos, savedKey, savedValue, at := i, key, value, m;
      valid := key.Some?;
      if !valid {
        direction := Forward;
      }
    }

    method Next()
      requires Valid() && valid
      modifies this
      ensures Valid() && Rests(Some(old(Key())), None)
    {
      ghost var was := at;
      if direction.Reverse? {
        direction := Forward;
        // the internal iterator is just before the entries for the key
        pos := if pos < 0 then 0 else pos + 1;
        ReverseSkips(es, snapshot, pos, was);
      } else {
        savedKey := Some(es[pos].key.user);
        ForwardSkips(es, snapshot, pos);
      }
      valid := false;
      ghost var start := pos;
      FindNextUserEntry(savedKey);
      ForwardRests(es, snapshot, start, Some(es[was].key.user), if valid then at else |es|);
    }

    /** Get below the entries of the current key; false if there is nothing below. */
    method TurnBack() returns (more: bool)
      requires Valid() && valid
      modifies this
      ensures Valid() && !valid && pos < |es| && Below(es, snapshot, pos, old(Key()))
      ensures if more then direction.Reverse? else pos == -1
    {
      more := true;
      if direction.Forward? {
        savedKey := Some(es[pos].key.user);
        pos := BackUp(es, pos);
        if pos < 0 {
          savedKey, savedValue := None, [];
          more := false;
        } else {
          direction := Reverse;
        }
      } else {
        BelowAll(es, snapshot, pos, at);
      }
      valid := false;
    }

    method Prev()
      requires Valid() && valid
      modifies this
      ensures Valid() && Rests(None, Some(old(Key())))
    {
      ghost var key := Key();
      var more := TurnBack();
      ghost var start := pos;
      if more {
        FindPrevUserEntry();
      }
      BackwardRests(es, snapshot, start, Some(key), if valid then at else -1);
    }

    method Seek(target: UserKey)
      requires Valid()
      modifies this
      ensures Valid()
      ensures valid ==> Shown(es, snapshot, Key()) == Some(Value()) && target <= Key()
      ensures forall k :: target <= k && (valid ==> k < Key()) ==> Shown(es, snapshot, k) == None
    {
      direction, savedValue, savedKey := Forward, [], None;
      valid := false;
      pos := LowerBound(es, LookupKey(target, snapshot));
      ghost var start := pos;
      if pos < |es| {
        SeekSkips(es, snapshot, target, pos);
        FindNextUserEntry(None);
      }
      SeekRests(es, snapshot, start, target, if valid then at else |es|);
    }

    method SeekToFirst()
      requires Valid()
      modifies this
      ensures Valid() && Rests(None, None)
      ensures valid ==> NothingBetween(es, snapshot, None, Some(Key()))
    {
      direction, savedValue := Forward, [];
      valid := false;
      pos := 0;
      if pos < |es| {
        FindNextUserEntry(None);
      }
      ForwardRests(es, snapshot, 0, None, if valid then at else |es|);
    }

    method SeekToLast()
      requires Valid()
      modifies this
      ensures Valid() && Rests(None, None)
      ensures valid ==> NothingBetween(es, snapshot, Some(Key()), None)
    {
      direction, savedValue := Reverse, [];
      valid := false;
      pos := |es| - 1;
      FindPrevUserEntry();
      BackwardRests(es, snapshot, |es| - 1, None, if valid then at else -1);
    }
  }

  // ----- from positions to keys -----

  lemma ReverseSkips(es: seq<Entry>, snapshot: nat, start: int, at: int)
    requires Sorted(es) && 0 <= start <= at < |es| && Yields(es, snapshot, at)
    requires forall j :: start <= j < at ==> !Visible(es, snapshot, j)
    requires start > 0 ==> es[start - 1].key.user < es[at].key.user
    ensures Skipped(es, snapshot, start, Some(es[at].key.user))
  {
    forall j: nat | j < |es| ensures j < start ==> es[j].key.user < es[at].key.user
      ensures at <= j ==> es[at].key.user <= es[j].key.user
    {
      if j < start {
        UsersAscend(es, j, start - 1);
      } else if at <= j {
        UsersAscend(es, at, j);
      }
    }
  }

  lemma ForwardSkips(es: seq<Entry>, snapshot: nat, at: nat)
    requires Sorted(es) && at < |es|
    ensures Skipped(es, snapshot, at, Some(es[at].key.user))
  {
    forall j: nat | j < |es| ensures j < at ==> es[j].key.user <= es[at].key.user
      ensures at <= j ==> es[at].key.user <= es[j].key.user
    {
      if j < at {
        UsersAscend(es, j, at);
      } else {
        UsersAscend(es, at, j);
      }
    }
  }

  lemma SeekSkips(es: seq<Entry>, snapshot: nat, target: UserKey, start: nat)
    requires Sorted(es) && start < |es|
    requires forall j :: 0 <= j < start ==> Before(es[j].key, LookupKey(target, snapshot))
    requires !Before(es[start].key, LookupKey(target, snapshot))
    ensures Skipped(es, snapshot, start, None)
  {
  }

  /** The forward scan ended at the next shown key after `past`. */
  lemma ForwardRests(es: seq<Entry>, snapshot: nat, start: nat, past: Option<UserKey>, i: nat)
    requires Listing(es) && Stopped(es, snapshot, start, past, i)
    requires forall j :: 0 <= j < start && Yields(es, snapshot, j) ==> past.Some? && es[j].key.user <= past.value
    ensures i < |es| ==> Shown(es, snapshot, es[i].key.user) == Some(es[i].value)
    ensures NothingBetween(es, snapshot, past, if i < |es| then Some(es[i].key.user) else None)
  {
    if i < |es| {
      YieldIsShown(es, snapshot, i);
    }
    forall j: nat | j < |es| && Yields(es, snapshot, j)
      ensures (past.Some? && es[j].key.user <= past.value) || (i < |es| && es[j].key.user >= es[i].key.user)
    {
      if i <= j {
        UsersAscend(es, i, j);
      }
    }
    NothingBetweenYields(es, snapshot, past, if i < |es| then Some(es[i].key.user) else None);
  }

  /** Nothing shown above `pos` is below the key, and what is at `pos` is. */
  ghost predicate Below(es: seq<Entry>, snapshot: nat, pos: int, key: UserKey) {
    && (forall j :: 0 <= j && pos < j < |es| && Yields(es, snapshot, j) ==> es[j].key.user >= key)
    && (0 <= pos < |es| ==> es[pos].key.user < key)
  }

  /** The backward scan ended at the shown key just below `bound`. */
  lemma BackwardRests(es: seq<Entry>, snapshot: nat, start: int, bound: Option<UserKey>, m: int)
    requires Listing(es) && -1 <= m <= start < |es| && (m >= 0 ==> Yields(es, snapshot, m))
    requires forall j :: m < j <= start ==> !Yields(es, snapshot, j)
    requires forall j :: start < j < |es| && Yields(es, snapshot, j) ==> bound.Some? && es[j].key.user >= bound.value
    requires start >= 0 && bound.Some? ==> es[start].key.user < bound.value
    ensures m >= 0 ==> Shown(es, snapshot, es[m].key.user) == Some(es[m].value)
    ensures m >= 0 && bound.Some? ==> es[m].key.user < bound.value
    ensures NothingBetween(es, snapshot, if m >= 0 then Some(es[m].key.user) else None, bound)
  {
    if m >= 0 {
      YieldIsShown(es, snapshot, m);
      UsersAscend(es, m, start);
    }
    forall j: nat | j < |es| && Yields(es, snapshot, j)
      ensures (m >= 0 && es[j].key.user <= es[m].key.user) || (bound.Some? && es[j].key.user >= bound.value)
    {
      if j <= m {
        UsersAscend(es, j, m);
      }
    }
    NothingBetweenYields(es, snapshot, if m >= 0 then Some(es[m].key.user) else None, bound);
  }

  /** Above a backward position only the key at hand and higher ones are shown. */
  lemma BelowAll(es: seq<Entry>, snapshot: nat, pos: int, at: nat)
    requires Sorted(es) && -1 <= pos < at < |es| && forall j :: pos < j < at ==> !Visible(es, snapshot, j)
    ensures forall j :: pos < j < |es| && Yields(es, snapshot, j) ==> es[j].key.user >= es[at].key.user
  {
    forall j: nat | at <= j < |es| ensures es[j].key.user >= es[at].key.user {
      UsersAscend(es, at, j);
    }
  }

  lemma SeekRests(es: seq<Entry>, snapshot: nat, start: nat, target: UserKey, i: nat)
    requires Listing(es) && Stopped(es, snapshot, start, None, i)
    requires forall j :: 0 <= j < start ==> Before(es[j].key, LookupKey(target, snapshot))
    requires start < |es| ==> !Before(es[start].key, LookupKey(target, snapshot))
    ensures i < |es| ==> Shown(es, snapshot, es[i].key.user) == Some(es[i].value) && target <= es[i].key.user
    ensures forall k :: target <= k && (i < |es| ==> k < es[i].key.user) ==> Shown(es, snapshot, k) == None
  {
    if i < |es| {
      YieldIsShown(es, snapshot, i);
      UsersAscend(es, start, i);
    }
    forall k | target <= k && (i < |es| ==> k < es[i].key.user) ensures Shown(es, snapshot, k) == None {
      if Shown(es, snapshot, k).Some? {
        var j := ShownIsYield(es, snapshot, k);
        if i <= j {
          UsersAscend(es, i, j);
        }
        assert false;
      }
    }
  }

  ghost predicate Stopped(es: seq<Entry>, snapshot: nat, start: int, past: Option<UserKey>, i: int) {
    && 0 <= start <= i <= |es|
    && NoYield(es, snapshot, start, i, past)
    && (i < |es| ==> Yields(es, snapshot, i) && (past.Some? ==> past.value < es[i].key.user))
  }

  /** `out` lists, in key order, exactly the shown keys below `bound`, with their values. */
  ghost predicate ListsBelow(es: seq<Entry>, snapshot: nat, out: seq<(UserKey, Bytes)>, bound: Option<UserKey>) {
    && (forall i, j :: 0 <= i < j < |out| ==> out[i].0 < out[j].0)
    && (forall i :: 0 <= i < |out| ==>
          Shown(es, snapshot, out[i].0) == Some(out[i].1) && (bound.Some? ==> out[i].0 < bound.value))
    && (forall k :: (bound.Some? ==> k < bound.value) && Shown(es, snapshot, k).Some? ==> exists i :: 0 <= i < |out| && out[i].0 == k)
  }

  lemma ListsNext(es: seq<Entry>, snapshot: nat, out: seq<(UserKey, Bytes)>, key: UserKey, value: Bytes, next: Option<UserKey>)
    requires ListsBelow(es, snapshot, out, Some(key)) && Shown(es, snapshot, key) == Some(value)
    requires next.Some? ==> key < next.value
    requires NothingBetween(es, snapshot, Some(key), next)
    ensures ListsBelow(es, snapshot, out + [(key, value)], next)
  {
    var more := out + [(key, value)];
    forall k | (next.Some? ==> k < next.value) && Shown(es, snapshot, k).Some? ensures exists i :: 0 <= i < |more| && more[i].0 == k {
      if k < key {
        var i :| 0 <= i < |out| && out[i].0 == k;
        assert more[i].0 == k;
      } else {
        assert k == key && more[|out|].0 == k;
      }
    }
  }

  /** The key the iterator rests on, if any. */
  ghost function Resting(it: DBIter): Option<UserKey>
    requires it.Valid()
    reads it
  {
    if it.valid then Some(it.Key()) else None
  }

  /** What the iterator rests on is what the snapshot shows there. */
  ghost predicate ShowsTruly(it: DBIter)
    reads it
  {
    it.Valid() && (it.valid ==> Shown(it.es, it.snapshot, it.Key()) == Some(it.Value()))
  }

  /** One step of a scan. */
  method TakeOne(it: DBIter) returns (key: UserKey, value: Bytes)
    requires ShowsTruly(it) && it.valid
    modifies it
    ensures ShowsTruly(it) && Shown(it.es, it.snapshot, key) == Some(value) && old(Resting(it)) == Some(key)
    ensures Resting(it).Some? ==> key < Resting(it).value
    ensures NothingBetween(it.es, it.snapshot, Some(key), Resting(it))
    ensures it.valid ==> it.at > old(it.at)
  {
    key, value := it.Key(), it.Value();
    it.Next();
    if it.valid {
      UsersStrict(it.es, old(it.at), it.at);
    }
  }

  lemma UsersStrict(es: seq<Entry>, i: int, j: int)
    requires Sorted(es) && 0 <= i < |es| && 0 <= j < |es| && es[i].key.user < es[j].key.user
    ensures i < j
  {
    if j < i {
      UsersAscend(es, j, i);
    }
  }

  /** A full forward scan lists exactly the keys the snapshot sees, in order, with their values. */
  method ScanAll(es: seq<Entry>, snapshot: nat) returns (out: seq<(UserKey, Bytes)>)
    requires Listing(es)
    ensures ListsBelow(es, snapshot, out, None)
  {
    var it := new DBIter(es, snapshot);
    out := [];
    it.SeekToFirst();
    while it.valid
      invariant ShowsTruly(it) && it.es == es && it.snapshot == snapshot
      invariant ListsBelow(es, snapshot, out, Resting(it))
      decreases if it.valid then |es| - it.at else -1
    {
      var key, value := TakeOne(it);
      ListsNext(es, snapshot, out, key, value, Resting(it));
      out := out + [(key, value)];
    }
  }
}
