/**
 Internal keys, entries and the flat multiversion view that every read is
 measured against (dbformat.h, dbformat.cc).

 A user key is only ever handed to the user comparator. Byte strings are
 countable and every total order on a countable set embeds in the reals, so a
 user key stands here for its position in the comparator's order.
 */
module InternalKeys {
  newtype byte = x: int | 0 <= x < 256
  type Bytes = seq<byte>
  type UserKey = real

  datatype Option<+T> = None | Some(value: T)

  const MAX_SEQUENCE: nat := 0xFF_FFFF_FFFF_FFFF

  datatype ValueType = Deletion | Value

  datatype InternalKey = InternalKey(user: UserKey, seqno: nat, kind: ValueType) {
    /** PackSequenceAndType: the sequence number above eight bits of type. */
    function Tag(): nat {
      seqno * 256 + if kind.Value? then 1 else 0
    }
  }

  datatype Entry = Entry(key: InternalKey, value: Bytes)

  /** Ascending user key, then descending tag. */
  predicate Before(a: InternalKey, b: InternalKey) {
    a.user < b.user || (a.user == b.user && a.Tag() > b.Tag())
  }

  /** The internal key used to look up a user key at a snapshot. */
  function LookupKey(user: UserKey, snapshot: nat): InternalKey {
    InternalKey(user, snapshot, Value)
  }

  predicate Sorted(entries: seq<Entry>) {
    forall i, j :: 0 <= i < j < |entries| ==> Before(entries[i].key, entries[j].key)
  }

  ghost function Elements<T>(s: seq<T>): set<T> {
    set x | x in s
  }

  // ----- the flat specification -----

  /** No two entries give the same user key the same sequence number. */
  ghost predicate Distinct(entries: set<Entry>) {
    forall a, b :: a in entries && b in entries && a.key.user == b.key.user && a.key.seqno == b.key.seqno ==> a == b
  }

  predicate Candidate(e: Entry, user: UserKey, snapshot: nat) {
    e.key.user == user && e.key.seqno <= snapshot
  }

  /** `e` is the newest entry for `user` that the snapshot may see. */
  ghost predicate Newest(entries: set<Entry>, user: UserKey, snapshot: nat, e: Entry) {
    && e in entries
    && Candidate(e, user, snapshot)
    && forall x :: x in entries && Candidate(x, user, snapshot) ==> x.key.seqno <= e.key.seqno
  }

  /** What a search for the newest entry must report. */
  ghost predicate IsNewest(entries: set<Entry>, user: UserKey, snapshot: nat, found: Option<Entry>) {
    match found
    case None => forall x :: x in entries ==> !Candidate(x, user, snapshot)
    case Some(e) => Newest(entries, user, snapshot, e)
  }

  function Answer(found: Option<Entry>): Option<Bytes> {
    match found
    case None => None
    case Some(e) => if e.key.kind.Value? then Some(e.value) else None
  }

  /** The value a reader at `snapshot` sees in a flat set of versions. */
  ghost function View(entries: set<Entry>, user: UserKey, snapshot: nat): Option<Bytes> {
    if exists e :: Newest(entries, user, snapshot, e)
    then Answer(Some(var e :| Newest(entries, user, snapshot, e); e))
    else None
  }

  lemma NewestExists(entries: set<Entry>, user: UserKey, snapshot: nat, start: Entry)
    requires start in entries && Candidate(start, user, snapshot)
    ensures exists e :: Newest(entries, user, snapshot, e)
    decreases snapshot - start.key.seqno
  {
    if !Newest(entries, user, snapshot, start) {
      var better :| better in entries && Candidate(better, user, snapshot) && better.key.seqno > start.key.seqno;
      NewestExists(entries, user, snapshot, better);
    }
  }

  /** Every correct search result yields the view. */
  lemma ViewIs(entries: set<Entry>, user: UserKey, snapshot: nat, found: Option<Entry>)
    requires Distinct(entries)
    requires IsNewest(entries, user, snapshot, found)
    ensures View(entries, user, snapshot) == Answer(found)
  {
    if found.Some? {
      assert Newest(entries, user, snapshot, found.value);
    }
  }

  ghost function FindNewest(entries: set<Entry>, user: UserKey, snapshot: nat): (found: Option<Entry>)
    ensures IsNewest(entries, user, snapshot, found)
  {
    if exists x :: x in entries && Candidate(x, user, snapshot) then
      var x :| x in entries && Candidate(x, user, snapshot);
      NewestExists(entries, user, snapshot, x);
      Some(var e :| Newest(entries, user, snapshot, e); e)
    else None
  }

  /** `upper` holds only newer versions of the user keys it shares with `lower`. */
  ghost predicate Newer(upper: set<Entry>, lower: set<Entry>) {
    forall a, b :: a in upper && b in lower && a.key.user == b.key.user ==> a.key.seqno > b.key.seqno
  }

  /** Searching newer data first and stopping at the first hit is exact. */
  lemma NewestLayered(upper: set<Entry>, lower: set<Entry>, user: UserKey, snapshot: nat,
                      inUpper: Option<Entry>, inLower: Option<Entry>)
    requires Newer(upper, lower)
    requires IsNewest(upper, user, snapshot, inUpper)
    requires inUpper.None? ==> IsNewest(lower, user, snapshot, inLower)
    ensures IsNewest(upper + lower, user, snapshot, if inUpper.Some? then inUpper else inLower)
  {
  }

  // ----- searching one sorted run (a memtable or a table file) -----

  /** The position of the first entry at or after `target`: SkipList::Iterator::Seek, Table::InternalGet. */
  function LowerBound(entries: seq<Entry>, target: InternalKey): (i: nat)
    ensures i <= |entries|
    ensures forall j :: 0 <= j < i ==> Before(entries[j].key, target)
    ensures i < |entries| ==> !Before(entries[i].key, target)
  {
    if entries == [] || !Before(entries[0].key, target) then 0
    else
      var i := LowerBound(entries[1..], target);
      assert forall j :: 1 <= j < i + 1 ==> entries[j] == entries[1..][j - 1];
      i + 1
  }

  /** MemTable::Get and Table::InternalGet with SaveValue: seek, then compare user keys. */
  function SearchRun(entries: seq<Entry>, user: UserKey, snapshot: nat): Option<Entry> {
    var i := LowerBound(entries, LookupKey(user, snapshot));
    if i < |entries| && entries[i].key.user == user then Some(entries[i]) else None
  }

  lemma SearchRunIsNewest(entries: seq<Entry>, user: UserKey, snapshot: nat)
    requires Sorted(entries)
    ensures IsNewest(Elements(entries), user, snapshot, SearchRun(entries, user, snapshot))
  {
    var target := LookupKey(user, snapshot);
    var i := LowerBound(entries, target);
    forall x | x in entries && Candidate(x, user, snapshot)
      ensures i < |entries| && entries[i].key.user == user && x.key.seqno <= entries[i].key.seqno
    {
      var j :| 0 <= j < |entries| && entries[j] == x;
      assert !Before(x.key, target);
      if i < j {
        assert Before(entries[i].key, entries[j].key);
      }
    }
  }
}
