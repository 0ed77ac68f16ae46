/**
 * `VersionSet::LogAndApply`, `WriteSnapshot` and `Recover`: whatever edits were
 * logged, reading the manifest back gives the current version and counters.
 */
module ManifestRecovery {
  import opened InternalKeys
  import opened Versions
  import opened VersionBuilder
  import opened Log
  import opened LogReader
  import opened LogSafety
  import opened Manifest

  // ----- VersionSet::Recover -----

  /** The counters a manifest tells, each from the last edit that has it. */
  datatype Known = Known(log: Option<nat>, prevLog: Option<nat>, nextFile: Option<nat>, lastSequence: Option<nat>)

  function Later<T>(was: Option<T>, now: Option<T>): Option<T> {
    if now.Some? then now else was
  }

  function Noted(k: Known, e: VersionEdit): Known {
    Known(Later(k.log, e.logNumber), Later(k.prevLog, e.prevLogNumber), Later(k.nextFile, e.nextFile),
          Later(k.lastSequence, e.lastSequence))
  }

  function NotedAll(k: Known, edits: seq<VersionEdit>): Known
    decreases |edits|
  {
    if edits == [] then k else NotedAll(Noted(k, edits[0]), edits[1..])
  }

  /** `edits` are those given to the builder, in order. */
  datatype Reading = Reading(edits: seq<VersionEdit>, known: Known, error: Option<string>)

  function NewEdit(): VersionEdit {
    VersionEdit(None, None, None, None, None, [], {}, [])
  }

  /** The loop body: a bad edit or another comparator ends the reading, but its counters are still noted. */
  function ReadEdit(fm: Format, comparator: Bytes, st: Reading, record: Bytes): Reading {
    var (edit, error) := DecodeRest(fm, record, Cleared(NewEdit()));
    var known := Noted(st.known, edit);
    if error.Some? then st.(known := known, error := error)
    else if edit.comparator.Some? && edit.comparator.value != comparator then
      st.(known := known, error := Some("does not match existing comparator"))
    else Reading(st.edits + [edit], known, None)
  }

  function ReadManifest(fm: Format, comparator: Bytes, crc: Checksum, r: Reader, st: Reading): Reading
    requires r.next <= |r.file|
    decreases Left(r)
  {
    var (record, s) := ReadFrom(crc, r, None);
    var now := if |s.drops| != |r.drops| && st.error.None? then st.(error := Some("corruption")) else st;
    if record.None? || now.error.Some? then now
    else ReadManifest(fm, comparator, crc, s, ReadEdit(fm, comparator, now, record.value))
  }

  function Unread(): Reading {
    Reading([], Known(None, None, None, None), None)
  }

  /** What Recover installs next to the version; the new manifest takes a number of its own. */
  datatype Counters = Counters(logNumber: nat, prevLogNumber: nat, manifestNumber: nat, nextFile: nat, lastSequence: nat)

  /** The checks after the loop. A missing previous log number counts as 0. */
  function CountersOf(st: Reading): Option<Counters> {
    if st.error.Some? || st.known.nextFile.None? || st.known.log.None? || st.known.lastSequence.None? then None
    else
      Some(Counters(st.known.log.value, if st.known.prevLog.Some? then st.known.prevLog.value else 0,
                    st.known.nextFile.value, st.known.nextFile.value + 1, st.known.lastSequence.value))
  }

  ghost predicate AllLevelsExist(edits: seq<VersionEdit>) {
    forall e <- edits :: LevelsExist(e)
  }

  lemma ReadEditLevels(fm: Format, comparator: Bytes, st: Reading, record: Bytes)
    requires AllLevelsExist(st.edits)
    ensures AllLevelsExist(ReadEdit(fm, comparator, st, record).edits)
  {
    DecodedLevels(fm, record, Cleared(NewEdit()));
  }

  /** The reading half of Recover. */
  method ReadManifestFile(fm: Format, comparator: Bytes, crc: Checksum, file: Bytes)
    returns (edits: seq<VersionEdit>, counters: Option<Counters>)
    ensures var st := ReadManifest(fm, comparator, crc, Open(file), Unread());
      edits == st.edits && counters == CountersOf(st)
    ensures AllLevelsExist(edits)
  {
    var reader := new LogReader(crc, file);
    var st := Unread();
    var done := false;
    while !done
      invariant reader.Valid() && reader.crc == crc && AllLevelsExist(st.edits)
      invariant ReadManifest(fm, comparator, crc, Open(file), Unread()) ==
          if done then st else ReadManifest(fm, comparator, crc, reader.State(), st)
      decreases !done, Left(reader.State())
    {
      var reported := |reader.drops|;
      var record := reader.ReadRecord();
      if |reader.drops| != reported && st.error.None? {
        st := st.(error := Some("corruption"));
      }
      if record.None? || st.error.Some? {
        done := true;
      } else {
        ReadEditLevels(fm, comparator, st, record.value);
        st := ReadEdit(fm, comparator, st, record.value);
      }
    }
    edits, counters := st.edits, CountersOf(st);
  }

  function NoFiles(): Version {
    seq(NUM_LEVELS, _ => [])
  }

  /** The version one builder makes of all the edits. */
  ghost predicate Built(edits: seq<VersionEdit>, v: Version) {
    forall l :: 0 <= l < NUM_LEVELS ==> SortedFiles(v[l]) && Elements(v[l]) == Saved({}, ApplyAll(Fresh(), edits, l))
  }

  /** The installing half of Recover: one builder over all the edits. */
  method BuildVersion(edits: seq<VersionEdit>) returns (v: Version)
    requires AllLevelsExist(edits)
    ensures Built(edits, v)
  {
    var builder := new Builder(NoFiles());
    for i := 0 to |edits|
      invariant builder.Valid() && builder.base == NoFiles()
      invariant forall l :: 0 <= l < NUM_LEVELS ==> builder.State(l) == ApplyAll(Fresh(), edits[..i], l)
    {
      forall l: nat | l < NUM_LEVELS
        ensures ApplyAll(Fresh(), edits[..i + 1], l) == ApplyLevel(ApplyAll(Fresh(), edits[..i], l), edits[i], l)
      {
        assert edits[..i + 1] == edits[..i] + [edits[i]];
        ApplyAllSnoc(Fresh(), edits[..i], edits[i], l);
      }
      builder.Apply(edits[i]);
    }
    assert edits[..|edits|] == edits;
    v := builder.SaveTo();
  }

  /** The record decodes to the edit without an error, and under the database's own comparator if it names one. */
  ghost predicate DecodesAs(fm: Format, comparator: Bytes, record: Bytes, edit: VersionEdit) {
    DecodeRest(fm, record, Cleared(NewEdit())) == (edit, None) && (edit.comparator == None || edit.comparator == Some(comparator))
  }

  ghost predicate Decodes(fm: Format, comparator: Bytes, records: seq<Bytes>, edits: seq<VersionEdit>) {
    |records| == |edits| && forall i :: 0 <= i < |records| ==> DecodesAs(fm, comparator, records[i], edits[i])
  }

  /**
   * A manifest is read without an error only if nothing in it was reported as
   * corrupt, every record decodes, and no edit names another comparator; the
   * edits are those of all its records.
   */
  lemma {:induction false} ReadingIsWhole(fm: Format, comparator: Bytes, crc: Checksum, r: Reader, st: Reading) returns (read: seq<VersionEdit>)
    requires r.next <= |r.file| && ReadManifest(fm, comparator, crc, r, st).error.None?
    ensures |ReadAll(crc, r).1.drops| == |r.drops| && Decodes(fm, comparator, ReadAll(crc, r).0, read)
    ensures ReadManifest(fm, comparator, crc, r, st).edits == st.edits + read
    decreases Left(r)
  {
    ReadingStep(fm, comparator, crc, r, st);
    var (record, s) := ReadFrom(crc, r, None);
    read := [];
    if record.Some? {
      var edit := DecodeRest(fm, record.value, Cleared(NewEdit())).0;
      var next := ReadEdit(fm, comparator, st, record.value);
      var rest := ReadingIsWhole(fm, comparator, crc, s, next);
      read := [edit] + rest;
      Prepended(fm, comparator, record.value, edit, ReadAll(crc, s).0, rest);
      JoinOne(st.edits, edit, rest);
    }
  }

  lemma JoinOne<T>(before: seq<T>, one: T, rest: seq<T>)
    ensures before + [one] + rest == before + ([one] + rest)
  {
  }

  lemma Prepended(fm: Format, comparator: Bytes, record: Bytes, edit: VersionEdit, records: seq<Bytes>, rest: seq<VersionEdit>)
    requires DecodesAs(fm, comparator, record, edit) && Decodes(fm, comparator, records, rest)
    ensures Decodes(fm, comparator, [record] + records, [edit] + rest)
  {
    var all, edits := [record] + records, [edit] + rest;
    forall i | 0 <= i < |all| ensures DecodesAs(fm, comparator, all[i], edits[i]) {
      assert i > 0 ==> all[i] == records[i - 1] && edits[i] == rest[i - 1];
    }
  }

  /** One step of a reading that ends without an error. */
  lemma ReadingStep(fm: Format, comparator: Bytes, crc: Checksum, r: Reader, st: Reading)
    requires r.next <= |r.file| && ReadManifest(fm, comparator, crc, r, st).error.None?
    ensures var (record, s) := ReadFrom(crc, r, None);
      && |s.drops| == |r.drops|
      && (record.None? ==> ReadManifest(fm, comparator, crc, r, st) == st && ReadAll(crc, r) == ([], s))
      && (record.Some? ==>
            var next := ReadEdit(fm, comparator, st, record.value);
            && TakesEdit(fm, comparator, st, record.value)
            && ReadManifest(fm, comparator, crc, r, st) == ReadManifest(fm, comparator, crc, s, next)
            && ReadAll(crc, r) == ([record.value] + ReadAll(crc, s).0, ReadAll(crc, s).1))
  {
    var (record, s) := ReadFrom(crc, r, None);
    if record.Some? && st.error.None? && |s.drops| == |r.drops| {
      var next := ReadEdit(fm, comparator, st, record.value);
      if next.error.Some? {
        ReadManifestFails(fm, comparator, crc, s, next);
      }
      TakenOrNot(fm, comparator, st, record.value);
    }
  }

  /** The record is added as an edit. */
  ghost predicate TakesEdit(fm: Format, comparator: Bytes, st: Reading, record: Bytes) {
    var edit := DecodeRest(fm, record, Cleared(NewEdit())).0;
    && DecodesAs(fm, comparator, record, edit)
    && ReadEdit(fm, comparator, st, record).edits == st.edits + [edit]
  }

  lemma TakenOrNot(fm: Format, comparator: Bytes, st: Reading, record: Bytes)
    ensures ReadEdit(fm, comparator, st, record).error.None? ==> TakesEdit(fm, comparator, st, record) || st.error.Some?
  {
  }

  /** One of the counters an edit may carry. */
  type Counter = VersionEdit -> Option<nat>

  /** The last edit that has the counter says `value`. */
  ghost predicate Tells(edits: seq<VersionEdit>, counter: Counter, value: nat) {
    exists i :: 0 <= i < |edits| && counter(edits[i]) == Some(value) && forall j :: i < j < |edits| ==> counter(edits[j]) == None
  }

  ghost predicate NeverTold(edits: seq<VersionEdit>, counter: Counter) {
    forall i :: 0 <= i < |edits| ==> counter(edits[i]) == None
  }

  ghost predicate LastTold(edits: seq<VersionEdit>, counter: Counter, known: Option<nat>) {
    if known.Some? then Tells(edits, counter, known.value) else NeverTold(edits, counter)
  }

  lemma ToldMore(edits: seq<VersionEdit>, e: VersionEdit, counter: Counter, known: Option<nat>)
    requires LastTold(edits, counter, known)
    ensures LastTold(edits + [e], counter, Later(known, counter(e)))
  {
    var all := edits + [e];
    if counter(e).Some? {
      assert all[|edits|] == e;
    } else if known.Some? {
      var i :| 0 <= i < |edits| && counter(edits[i]) == known && forall j :: i < j < |edits| ==> counter(edits[j]) == None;
      assert all[i] == edits[i];
    }
  }

  ghost predicate AllTold(edits: seq<VersionEdit>, k: Known) {
    && LastTold(edits, (e: VersionEdit) => e.logNumber, k.log) && LastTold(edits, (e: VersionEdit) => e.prevLogNumber, k.prevLog)
    && LastTold(edits, (e: VersionEdit) => e.nextFile, k.nextFile)
    && LastTold(edits, (e: VersionEdit) => e.lastSequence, k.lastSequence)
  }

  lemma {:induction false} ReadingTells(fm: Format, comparator: Bytes, crc: Checksum, r: Reader, st: Reading)
    requires r.next <= |r.file| && (st.error.None? ==> AllTold(st.edits, st.known))
    ensures var out := ReadManifest(fm, comparator, crc, r, st); out.error.None? ==> AllTold(out.edits, out.known)
    decreases Left(r)
  {
    var (record, s) := ReadFrom(crc, r, None);
    var now := if |s.drops| != |r.drops| && st.error.None? then st.(error := Some("corruption")) else st;
    if record.Some? && now.error.None? {
      EditTells(fm, comparator, now, record.value);
      ReadingTells(fm, comparator, crc, s, ReadEdit(fm, comparator, now, record.value));
    }
  }

  lemma EditTells(fm: Format, comparator: Bytes, st: Reading, record: Bytes)
    requires AllTold(st.edits, st.known)
    ensures var next := ReadEdit(fm, comparator, st, record); next.error.None? ==> AllTold(next.edits, next.known)
  {
    var e := DecodeRest(fm, record, Cleared(NewEdit())).0;
    ToldMore(st.edits, e, (e: VersionEdit) => e.logNumber, st.known.log);
    ToldMore(st.edits, e, (e: VersionEdit) => e.prevLogNumber, st.known.prevLog);
    ToldMore(st.edits, e, (e: VersionEdit) => e.nextFile, st.known.nextFile);
    ToldMore(st.edits, e, (e: VersionEdit) => e.lastSequence, st.known.lastSequence);
  }

  /** The counters are the last ones told: the file numbers go on after the new manifest's, which is the one that was next. */
  ghost predicate CountersTold(edits: seq<VersionEdit>, c: Counters) {
    && Tells(edits, (e: VersionEdit) => e.logNumber, c.logNumber)
    && (Tells(edits, (e: VersionEdit) => e.prevLogNumber, c.prevLogNumber)
        || (NeverTold(edits, (e: VersionEdit) => e.prevLogNumber) && c.prevLogNumber == 0))
    && Tells(edits, (e: VersionEdit) => e.nextFile, c.manifestNumber) && c.nextFile == c.manifestNumber + 1
    && Tells(edits, (e: VersionEdit) => e.lastSequence, c.lastSequence)
  }

  /** The manifest lacks one of the three counters it must tell. */
  ghost predicate CounterMissing(edits: seq<VersionEdit>) {
    || NeverTold(edits, (e: VersionEdit) => e.logNumber) || NeverTold(edits, (e: VersionEdit) => e.nextFile)
    || NeverTold(edits, (e: VersionEdit) => e.lastSequence)
  }

  lemma ToldOrNever(edits: seq<VersionEdit>, counter: Counter, value: nat)
    requires Tells(edits, counter, value)
    ensures !NeverTold(edits, counter)
  {
  }

  lemma CountersAreTold(fm: Format, comparator: Bytes, crc: Checksum, file: Bytes)
    ensures var st := ReadManifest(fm, comparator, crc, Open(file), Unread());
      if st.error.Some? || CounterMissing(st.edits) then CountersOf(st).None?
      else CountersOf(st).Some? && CountersTold(st.edits, CountersOf(st).value)
  {
    ReadingTells(fm, comparator, crc, Open(file), Unread());
    var st := ReadManifest(fm, comparator, crc, Open(file), Unread());
    if st.error.None? {
      TellsAll(st);
    }
  }

  lemma TellsAll(st: Reading)
    requires st.error.None? && AllTold(st.edits, st.known)
    ensures if CounterMissing(st.edits) then CountersOf(st).None?
      else CountersOf(st).Some? && CountersTold(st.edits, CountersOf(st).value)
  {
    if st.known.log.Some? {
      ToldOrNever(st.edits, (e: VersionEdit) => e.logNumber, st.known.log.value);
    }
    if st.known.nextFile.Some? {
      ToldOrNever(st.edits, (e: VersionEdit) => e.nextFile, st.known.nextFile.value);
    }
    if st.known.lastSequence.Some? {
      ToldOrNever(st.edits, (e: VersionEdit) => e.lastSequence, st.known.lastSequence.value);
    }
  }

  /**
   * VersionSet::Recover, from the manifest's bytes: an error if the reading
   * fails or one of three counters is never told, else the version built from
   * all edits and the counters last told.
   */
  method Recover(fm: Format, comparator: Bytes, crc: Checksum, file: Bytes) returns (r: Option<(Version, Counters)>)
    ensures var st := ReadManifest(fm, comparator, crc, Open(file), Unread());
      if st.error.Some? || CounterMissing(st.edits) then r == None
      else r.Some? && Built(st.edits, r.value.0) && CountersTold(st.edits, r.value.1)
  {
    CountersAreTold(fm, comparator, crc, file);
    var edits, counters := ReadManifestFile(fm, comparator, crc, file);
    if counters.None? {
      return None;
    }
    var v := BuildVersion(edits);
    return Some((v, counters.value));
  }

  // ----- reading back what was written -----

  /** `record` is the encoding of `edit`, under the comparator's name or none. */
  ghost predicate EncodesEdit(fm: Format, comparator: Bytes, edit: VersionEdit, record: Bytes) {
    && EditOk(fm, edit) && (edit.comparator == None || edit.comparator == Some(comparator))
    && exists listed :: Lists(listed, edit) && record == EncodeFields(fm, FieldsOf(edit, listed))
  }

  ghost predicate Encodes(fm: Format, comparator: Bytes, edits: seq<VersionEdit>, records: seq<Bytes>) {
    |records| == |edits| && forall i :: 0 <= i < |edits| ==> EncodesEdit(fm, comparator, edits[i], records[i])
  }

  lemma ReadEncodedEdit(fm: Format, comparator: Bytes, st: Reading, edit: VersionEdit, record: Bytes)
    requires EncodesEdit(fm, comparator, edit, record) && st.error.None?
    ensures ReadEdit(fm, comparator, st, record) == Reading(st.edits + [edit], Noted(st.known, edit), None)
  {
    var listed :| Lists(listed, edit) && record == EncodeFields(fm, FieldsOf(edit, listed));
    EditRoundTrip(fm, NewEdit(), edit, listed);
    assert [] + edit.compactPointers == edit.compactPointers;
  }

  /** Unfolding one record of a manifest that reads without a report. */
  lemma ReadManifestStep(fm: Format, comparator: Bytes, crc: Checksum, r: Reader, st: Reading)
    requires r.next <= |r.file| && st.error.None? && |ReadAll(crc, r).1.drops| == |r.drops|
    ensures var (records, _) := ReadAll(crc, r);
      var (record, s) := ReadFrom(crc, r, None);
      |s.drops| == |r.drops| &&
      if records == [] then ReadManifest(fm, comparator, crc, r, st) == st
      else ReadAll(crc, s).0 == records[1..] && ReadAll(crc, s).1 == ReadAll(crc, r).1 &&
           ReadManifest(fm, comparator, crc, r, st)
             == ReadManifest(fm, comparator, crc, s, ReadEdit(fm, comparator, st, records[0]))
  {
    var (record, s) := ReadFrom(crc, r, None);
    ReadAllStep(crc, r, record, s);
  }

  /** What one record does to the reading. */
  type Taker = (Reading, Bytes) -> Reading

  function Takes(fm: Format, comparator: Bytes): Taker {
    (st: Reading, record: Bytes) => ReadEdit(fm, comparator, st, record)
  }

  /** The loop over a list of records, up to the first error. */
  function ReadEdits(take: Taker, st: Reading, records: seq<Bytes>): Reading
    decreases |records|
  {
    if records == [] || st.error.Some? then st else ReadEdits(take, take(st, records[0]), records[1..])
  }

  /** The record is taken as this edit, whatever was read before. */
  ghost predicate TakenAs(take: Taker, edit: VersionEdit, record: Bytes) {
    forall st: Reading | st.error.None? :: take(st, record) == Reading(st.edits + [edit], Noted(st.known, edit), None)
  }

  lemma ReadManifestFails(fm: Format, comparator: Bytes, crc: Checksum, r: Reader, st: Reading)
    requires r.next <= |r.file| && st.error.Some?
    ensures ReadManifest(fm, comparator, crc, r, st) == st
  {
  }

  /** A manifest in which the reader finds no corruption is its list of records. */
  lemma {:induction false} ReadManifestRecords(fm: Format, comparator: Bytes, crc: Checksum, r: Reader, st: Reading)
    requires r.next <= |r.file| && st.error.None? && |ReadAll(crc, r).1.drops| == |r.drops|
    ensures ReadManifest(fm, comparator, crc, r, st) == ReadEdits(Takes(fm, comparator), st, ReadAll(crc, r).0)
    decreases |ReadAll(crc, r).0|
  {
    ReadManifestStep(fm, comparator, crc, r, st);
    var records := ReadAll(crc, r).0;
    if records != [] {
      var s := ReadFrom(crc, r, None).1;
      var next := ReadEdit(fm, comparator, st, records[0]);
      if next.error.Some? {
        ReadManifestFails(fm, comparator, crc, s, next);
      } else {
        ReadManifestRecords(fm, comparator, crc, s, next);
      }
    }
  }

  ghost predicate AllTaken(take: Taker, edits: seq<VersionEdit>, records: seq<Bytes>) {
    |records| == |edits| && forall i :: 0 <= i < |edits| ==> TakenAs(take, edits[i], records[i])
  }

  lemma Shift<T>(a: seq<T>, b: seq<T>)
    requires b != []
    ensures a + [b[0]] + b[1..] == a + b
  {
  }

  lemma TakenTail(take: Taker, edits: seq<VersionEdit>, records: seq<Bytes>)
    requires edits != [] && AllTaken(take, edits, records)
    ensures TakenAs(take, edits[0], records[0]) && AllTaken(take, edits[1..], records[1..])
  {
  }

  lemma TakeOne(take: Taker, st: Reading, edit: VersionEdit, record: Bytes)
    requires st.error.None? && TakenAs(take, edit, record)
    ensures take(st, record) == Reading(st.edits + [edit], Noted(st.known, edit), None)
  {
  }

  lemma {:induction false} ReadTakenEdits(take: Taker, st: Reading, edits: seq<VersionEdit>, records: seq<Bytes>)
    requires st.error.None? && AllTaken(take, edits, records)
    ensures ReadEdits(take, st, records) == Reading(st.edits + edits, NotedAll(st.known, edits), None)
    decreases |edits|
  {
    if edits == [] {
      assert st.edits + edits == st.edits;
    } else {
      TakenTail(take, edits, records);
      TakeOne(take, st, edits[0], records[0]);
      Shift(st.edits, edits);
      var next := Reading(st.edits + [edits[0]], Noted(st.known, edits[0]), None);
      ReadTakenEdits(take, next, edits[1..], records[1..]);
    }
  }

  lemma EncodedIsTaken(fm: Format, comparator: Bytes, edit: VersionEdit, record: Bytes)
    requires EncodesEdit(fm, comparator, edit, record)
    ensures TakenAs(Takes(fm, comparator), edit, record)
  {
    forall st: Reading | st.error.None?
      ensures Takes(fm, comparator)(st, record) == Reading(st.edits + [edit], Noted(st.known, edit), None)
    {
      ReadEncodedEdit(fm, comparator, st, edit, record);
    }
  }

  lemma ReadEncodedEdits(fm: Format, comparator: Bytes, st: Reading, edits: seq<VersionEdit>, records: seq<Bytes>)
    requires st.error.None? && Encodes(fm, comparator, edits, records)
    ensures ReadEdits(Takes(fm, comparator), st, records) == Reading(st.edits + edits, NotedAll(st.known, edits), None)
  {
    forall i | 0 <= i < |edits| ensures TakenAs(Takes(fm, comparator), edits[i], records[i]) {
      EncodedIsTaken(fm, comparator, edits[i], records[i]);
    }
    ReadTakenEdits(Takes(fm, comparator), st, edits, records);
  }

  /** A manifest cut at any byte is read as the edits that are whole in it. */
  lemma CutManifestReadsWholeEdits(fm: Format, comparator: Bytes, crc: Checksum, edits: seq<VersionEdit>, records: seq<Bytes>, n: nat)
    requires Encodes(fm, comparator, edits, records) && n <= |LogBytes(Writes(crc), 0, records)|
    ensures var k := Whole(Writes(crc), 0, records, n);
      ReadManifest(fm, comparator, crc, Open(LogBytes(Writes(crc), 0, records)[..n]), Unread())
        == Reading(edits[..k], NotedAll(Known(None, None, None, None), edits[..k]), None)
  {
    var write := Writes(crc);
    var file := LogBytes(write, 0, records)[..n];
    var k := Whole(write, 0, records, n);
    WriterReadsBack(crc);
    ReadRecords(crc, write, Open(file), 0, records);
    ReadManifestRecords(fm, comparator, crc, Open(file), Unread());
    ReadEncodedEdits(fm, comparator, Unread(), edits[..k], records[..k]);
    assert [] + edits[..k] == edits[..k];
  }

  // ----- LogAndApply -----

  /**
   * `files` is the current version, `manifest` the edits logged so far; `savedNext`
   * and `savedSequence` are the counters as the last LogAndApply found them.
   */
  datatype VersionSet = VersionSet(
    files: Version, logNumber: nat, prevLogNumber: nat, nextFile: nat, lastSequence: nat,
    savedNext: nat, savedSequence: nat, manifest: seq<VersionEdit>)

  /** LogAndApply fills in what the caller left open. */
  function Completed(vs: VersionSet, edit: VersionEdit): VersionEdit {
    edit.(logNumber := if edit.logNumber.Some? then edit.logNumber else Some(vs.logNumber),
          prevLogNumber := if edit.prevLogNumber.Some? then edit.prevLogNumber else Some(vs.prevLogNumber),
          nextFile := Some(vs.nextFile), lastSequence := Some(vs.lastSequence))
  }

  /** The edit is logged, then the version it leads to is installed. */
  ghost predicate Applied(vs: VersionSet, edit: VersionEdit, vs': VersionSet) {
    && (edit.logNumber.Some? ==> vs.logNumber <= edit.logNumber.value < vs.nextFile)
    && var done := Completed(vs, edit);
       && (forall l: nat | l < NUM_LEVELS :: InstalledLevel(vs.files[l], ApplyLevel(Fresh(), done, l), vs'.files[l]))
       && vs' == vs.(files := vs'.files, logNumber := done.logNumber.value, prevLogNumber := done.prevLogNumber.value,
                     savedNext := vs.nextFile, savedSequence := vs.lastSequence, manifest := vs.manifest + [done])
  }

  /** LogAndApply when the manifest can be written. */
  method LogAndApply(vs: VersionSet, edit: VersionEdit) returns (vs': VersionSet)
    requires LevelsExist(edit) && forall l :: 0 <= l < NUM_LEVELS ==> OrderedFiles(false, vs.files[l])
    requires edit.logNumber.Some? ==> vs.logNumber <= edit.logNumber.value < vs.nextFile
    ensures Applied(vs, edit, vs') && forall l :: 0 <= l < NUM_LEVELS ==> OrderedFiles(false, vs'.files[l])
  {
    var done := Completed(vs, edit);
    var builder := new Builder(vs.files);
    builder.Apply(done);
    assert forall l: nat | l < NUM_LEVELS :: builder.State(l) == ApplyLevel(Fresh(), done, l);
    var v := builder.SaveTo();
    vs' := vs.(files := v, logNumber := done.logNumber.value, prevLogNumber := done.prevLogNumber.value,
               savedNext := vs.nextFile, savedSequence := vs.lastSequence, manifest := vs.manifest + [done]);
  }

  /** Between edits file numbers and sequence numbers are handed out. */
  ghost predicate CountersAdvance(vs: VersionSet, vs': VersionSet) {
    && vs.nextFile <= vs'.nextFile && vs.lastSequence <= vs'.lastSequence
    && vs' == vs.(nextFile := vs'.nextFile, lastSequence := vs'.lastSequence)
  }

  // ----- WriteSnapshot -----

  /** The compaction pointers of the levels below n that have one. */
  function PointersOf(pointers: seq<Option<InternalKey>>, n: nat): seq<(nat, InternalKey)>
    requires n <= |pointers|
  {
    if n == 0 then []
    else PointersOf(pointers, n - 1) + if pointers[n - 1].Some? then [(n - 1, pointers[n - 1].value)] else []
  }

  function AtLevel(level: nat, files: seq<FileMeta>): (r: seq<(nat, FileMeta)>)
    ensures |r| == |files| && forall i :: 0 <= i < |r| ==> r[i] == (level, files[i])
  {
    seq(|files|, i requires 0 <= i < |files| => (level, files[i]))
  }

  /** The files of the levels below n, level by level. */
  function FilesOf(v: Version, n: nat): seq<(nat, FileMeta)>
    requires n <= NUM_LEVELS
  {
    if n == 0 then [] else FilesOf(v, n - 1) + AtLevel(n - 1, v[n - 1])
  }

  /** The edit a new manifest starts with: every pointer and file, no deletions, no counters. */
  function SnapshotEdit(comparator: Bytes, pointers: seq<Option<InternalKey>>, v: Version): VersionEdit
    requires |pointers| == NUM_LEVELS
  {
    VersionEdit(Some(comparator), None, None, None, None, PointersOf(pointers, NUM_LEVELS), {}, FilesOf(v, NUM_LEVELS))
  }

  /** The loops of WriteSnapshot. */
  method WriteSnapshot(comparator: Bytes, pointers: seq<Option<InternalKey>>, v: Version) returns (edit: VersionEdit)
    requires |pointers| == NUM_LEVELS
    ensures edit == SnapshotEdit(comparator, pointers, v)
  {
    edit := NewEdit().(comparator := Some(comparator));
    for level := 0 to NUM_LEVELS
      invariant edit == NewEdit().(comparator := Some(comparator), compactPointers := PointersOf(pointers, level))
    {
      if pointers[level].Some? {
        edit := edit.(compactPointers := edit.compactPointers + [(level, pointers[level].value)]);
      }
    }
    for level := 0 to NUM_LEVELS
      invariant edit == SnapshotEdit(comparator, pointers, v).(added := FilesOf(v, level))
    {
      var files := v[level];
      for i := 0 to |files|
        invariant edit == SnapshotEdit(comparator, pointers, v).(added := FilesOf(v, level) + AtLevel(level, files)[..i])
      {
        edit := edit.(added := edit.added + [(level, files[i])]);
      }
      assert AtLevel(level, files)[..|files|] == AtLevel(level, files);
    }
  }

  lemma {:induction false} FilesOfLevel(v: Version, n: nat, l: nat)
    requires n <= NUM_LEVELS && l < NUM_LEVELS
    ensures AddedIn(FilesOf(v, n), l) == if l < n then Elements(v[l]) else {}
  {
    if n > 0 {
      FilesOfLevel(v, n - 1, l);
      var front, last := FilesOf(v, n - 1), AtLevel(n - 1, v[n - 1]);
      assert AddedIn(front + last, l) == AddedIn(front, l) + AddedIn(last, l);
      AddedAtOneLevel(n - 1, v[n - 1], l);
    }
  }

  lemma AddedAtOneLevel(level: nat, files: seq<FileMeta>, l: nat)
    ensures AddedIn(AtLevel(level, files), l) == if l == level then Elements(files) else {}
  {
    var r := AtLevel(level, files);
    forall f | f in files && l == level ensures f in AddedIn(r, l) {
      var i :| 0 <= i < |files| && files[i] == f;
      assert r[i] in r;
    }
  }

  lemma SortedNoneTwice(files: seq<FileMeta>)
    requires SortedFiles(files)
    ensures NoneTwice(Elements(files))
  {
  }

  /** Applied to no files, the snapshot gives the version back. */
  lemma SnapshotInstalls(comparator: Bytes, pointers: seq<Option<InternalKey>>, v: Version, l: nat)
    requires |pointers| == NUM_LEVELS && l < NUM_LEVELS && SortedFiles(v[l])
    ensures InstallEach({}, [SnapshotEdit(comparator, pointers, v)], l) == Elements(v[l])
  {
    var e := SnapshotEdit(comparator, pointers, v);
    FilesOfLevel(v, NUM_LEVELS, l);
    SortedNoneTwice(v[l]);
    NewIsAdded(e, l);
    ApplyForm(Fresh(), e, l);
    assert Unshadowed({}, Elements(v[l])) == Elements(v[l]) && DeletedAt(e, l) == {};
    assert Saved({}, ApplyLevel(Fresh(), e, l)) == Elements(v[l]);
    assert [e][1..] == [];
  }

  /** A new manifest holds the snapshot of a sorted version. */
  ghost predicate Snapshotted(vs: VersionSet) {
    && (forall l :: 0 <= l < NUM_LEVELS ==> SortedFiles(vs.files[l]))
    && exists comparator, pointers :: |pointers| == NUM_LEVELS && vs.manifest == [SnapshotEdit(comparator, pointers, vs.files)]
  }

  ghost predicate Step(vs: VersionSet, vs': VersionSet) {
    CountersAdvance(vs, vs') || exists edit :: Applied(vs, edit, vs')
  }

  ghost predicate Run(states: seq<VersionSet>) {
    states != [] && Snapshotted(states[0]) && forall i :: 0 <= i < |states| - 1 ==> Step(states[i], states[i + 1])
  }

  // ----- the manifest tells the current version -----

  /** The manifest tells the files of a level; they are strictly sorted if every number was added once. */
  ghost predicate LevelCurrent(vs: VersionSet, l: nat)
    requires l < NUM_LEVELS
  {
    && Elements(vs.files[l]) == InstallEach({}, vs.manifest, l)
    && (AddedOnce({}, vs.manifest, l) ==> SortedFiles(vs.files[l]))
  }

  /** After its first edit the manifest tells the log numbers and the counters of the last LogAndApply. */
  ghost predicate CountersCurrent(vs: VersionSet) {
    var k := NotedAll(Known(None, None, None, None), vs.manifest);
    |vs.manifest| > 1 ==>
      && k.log == Some(vs.logNumber) && k.prevLog == Some(vs.prevLogNumber)
      && k.nextFile == Some(vs.savedNext) && vs.savedNext <= vs.nextFile
      && k.lastSequence == Some(vs.savedSequence) && vs.savedSequence <= vs.lastSequence
  }

  ghost predicate ManifestCurrent(vs: VersionSet) {
    |vs.manifest| > 0 && CountersCurrent(vs) && forall l: nat | l < NUM_LEVELS :: LevelCurrent(vs, l)
  }

  lemma {:induction false} NotedSnoc(k: Known, edits: seq<VersionEdit>, e: VersionEdit)
    ensures NotedAll(k, edits + [e]) == Noted(NotedAll(k, edits), e)
    decreases |edits|
  {
    var all := edits + [e];
    if edits == [] {
      assert all[1..] == [];
    } else {
      assert all[1..] == edits[1..] + [e];
      NotedSnoc(Noted(k, edits[0]), edits[1..], e);
    }
  }

  /** The last edit's numbers are new to what was there. */
  lemma {:induction false} AddedOnceSnoc(present: set<nat>, base: set<FileMeta>, edits: seq<VersionEdit>, e: VersionEdit, level: nat)
    requires Numbers(base) <= present && AddedOnce(present, edits + [e], level)
    ensures AddedOnce(present, edits, level) && Numbers(InstallEach(base, edits, level)) !! Numbers(AddedAt(e, level))
    decreases |edits|
  {
    var all := edits + [e];
    if edits != [] {
      assert all[1..] == edits[1..] + [e];
      var next := Saved(base, ApplyLevel(Fresh(), edits[0], level));
      InstalledNumbers(base, edits[0], level);
      AddedOnceSnoc(present + Numbers(AddedAt(edits[0], level)), next, edits[1..], e, level);
    }
  }

  lemma InstalledNumbers(base: set<FileMeta>, e: VersionEdit, level: nat)
    ensures Numbers(Saved(base, ApplyLevel(Fresh(), e, level))) <= Numbers(base) + Numbers(AddedAt(e, level))
  {
    ApplyForm(Fresh(), e, level);
    NewIsAdded(e, level);
  }

  lemma SnapshotIsCurrent(vs: VersionSet)
    requires Snapshotted(vs)
    ensures ManifestCurrent(vs)
  {
    var comparator, pointers :| |pointers| == NUM_LEVELS && vs.manifest == [SnapshotEdit(comparator, pointers, vs.files)];
    forall l: nat | l < NUM_LEVELS ensures LevelCurrent(vs, l) {
      SnapshotInstalls(comparator, pointers, vs.files, l);
    }
  }

  lemma AppliedLevel(vs: VersionSet, edit: VersionEdit, vs': VersionSet, l: nat)
    requires l < NUM_LEVELS && LevelCurrent(vs, l) && Applied(vs, edit, vs')
    ensures LevelCurrent(vs', l)
  {
    var done := Completed(vs, edit);
    InstallEachSnoc({}, vs.manifest, done, l);
    if AddedOnce({}, vs'.manifest, l) {
      AddedOnceSnoc({}, {}, vs.manifest, done, l);
      ApplyForm(Fresh(), done, l);
      NewIsAdded(done, l);
      forall f, g | f in vs.files[l] && g in ApplyLevel(Fresh(), done, l).added ensures !Equivalent(f, g) {
        assert f in Elements(vs.files[l]) && f.number in Numbers(InstallEach({}, vs.manifest, l));
        assert g in AddedAt(done, l) && g.number in Numbers(AddedAt(done, l));
      }
    }
  }

  lemma LogAndApplyKeepsCurrent(vs: VersionSet, edit: VersionEdit, vs': VersionSet)
    requires ManifestCurrent(vs) && Applied(vs, edit, vs')
    ensures ManifestCurrent(vs')
  {
    NotedSnoc(Known(None, None, None, None), vs.manifest, Completed(vs, edit));
    forall l: nat | l < NUM_LEVELS ensures LevelCurrent(vs', l) {
      AppliedLevel(vs, edit, vs', l);
    }
  }

  lemma {:induction false} RunKeepsManifestCurrent(states: seq<VersionSet>, i: nat)
    requires Run(states) && i < |states|
    ensures ManifestCurrent(states[i])
  {
    if i == 0 {
      SnapshotIsCurrent(states[0]);
    } else {
      RunKeepsManifestCurrent(states, i - 1);
      assert Step(states[i - 1], states[i]);
      StepKeepsCurrent(states[i - 1], states[i]);
    }
  }

  lemma StepKeepsCurrent(vs: VersionSet, vs': VersionSet)
    requires ManifestCurrent(vs) && Step(vs, vs')
    ensures ManifestCurrent(vs')
  {
    if CountersAdvance(vs, vs') {
      assert forall l: nat | l < NUM_LEVELS :: LevelCurrent(vs, l) ==> LevelCurrent(vs', l);
    } else {
      var edit :| Applied(vs, edit, vs');
      LogAndApplyKeepsCurrent(vs, edit, vs');
    }
  }

  lemma WholeLogIsWhole(crc: Checksum, records: seq<Bytes>)
    ensures var log := LogBytes(Writes(crc), 0, records);
      Whole(Writes(crc), 0, records, |log|) == |records|
  {
    var write := Writes(crc);
    var log := LogBytes(write, 0, records);
    WholeIsExact(write, 0, records, |log|);
    var k := Whole(write, 0, records, |log|);
    if k < |records| {
      LogPrefixShorter(write, records, k + 1);
    }
  }

  lemma ReadWholeManifest(fm: Format, comparator: Bytes, crc: Checksum, edits: seq<VersionEdit>, records: seq<Bytes>)
    requires Encodes(fm, comparator, edits, records)
    ensures ReadManifest(fm, comparator, crc, Open(LogBytes(Writes(crc), 0, records)), Unread())
        == Reading(edits, NotedAll(Known(None, None, None, None), edits), None)
  {
    var log := LogBytes(Writes(crc), 0, records);
    WholeLogIsWhole(crc, records);
    CutManifestReadsWholeEdits(fm, comparator, crc, edits, records, |log|);
    assert log[..|log|] == log && edits[..|edits|] == edits;
  }

  lemma CurrentIsBuilt(vs: VersionSet, v: Version)
    requires ManifestCurrent(vs) && Built(vs.manifest, v)
    requires forall l: nat | l < NUM_LEVELS :: AddedOnce({}, vs.manifest, l)
    ensures v == vs.files
  {
    forall l: nat | l < NUM_LEVELS ensures v[l] == vs.files[l] {
      assert LevelCurrent(vs, l);
      assert Numbers({} + Fresh().added) == {};
      BatchEqualsEach({}, Fresh(), vs.manifest, l);
      assert Saved({}, Fresh()) == {};
      assert forall f :: f in v[l] <==> f in Elements(v[l]);
      SortedUnique(v[l], vs.files[l]);
    }
  }

  /** What Recover installs: the current file lists and log numbers, and the counters of the last LogAndApply. */
  ghost predicate Rebuilt(vs: VersionSet, v: Version, c: Counters) {
    && v == vs.files && c.logNumber == vs.logNumber && c.prevLogNumber == vs.prevLogNumber
    && c.manifestNumber == vs.savedNext && c.nextFile == vs.savedNext + 1 && vs.savedNext <= vs.nextFile
    && c.lastSequence == vs.savedSequence && vs.savedSequence <= vs.lastSequence
  }

  lemma LastIsUnique(edits: seq<VersionEdit>, counter: Counter, a: nat, b: nat)
    requires Tells(edits, counter, a) && Tells(edits, counter, b)
    ensures a == b
  {
    var i :| 0 <= i < |edits| && counter(edits[i]) == Some(a) && forall j :: i < j < |edits| ==> counter(edits[j]) == None;
    var k :| 0 <= k < |edits| && counter(edits[k]) == Some(b) && forall j :: k < j < |edits| ==> counter(edits[j]) == None;
  }

  lemma {:induction false} NotedTells(edits: seq<VersionEdit>)
    ensures AllTold(edits, NotedAll(Known(None, None, None, None), edits))
  {
    if edits != [] {
      var n := |edits| - 1;
      NotedTells(edits[..n]);
      assert edits == edits[..n] + [edits[n]];
      NotedSnoc(Known(None, None, None, None), edits[..n], edits[n]);
      ToldNext(edits[..n], edits[n], NotedAll(Known(None, None, None, None), edits[..n]));
    }
  }

  lemma ToldNext(edits: seq<VersionEdit>, e: VersionEdit, k: Known)
    requires AllTold(edits, k)
    ensures AllTold(edits + [e], Noted(k, e))
  {
    ToldMore(edits, e, (e: VersionEdit) => e.logNumber, k.log);
    ToldMore(edits, e, (e: VersionEdit) => e.prevLogNumber, k.prevLog);
    ToldMore(edits, e, (e: VersionEdit) => e.nextFile, k.nextFile);
    ToldMore(edits, e, (e: VersionEdit) => e.lastSequence, k.lastSequence);
  }

  /** The manifest of a state tells its log numbers and the counters of its last LogAndApply. */
  ghost predicate TellsCurrent(vs: VersionSet) {
    && Tells(vs.manifest, (e: VersionEdit) => e.logNumber, vs.logNumber)
    && Tells(vs.manifest, (e: VersionEdit) => e.prevLogNumber, vs.prevLogNumber)
    && Tells(vs.manifest, (e: VersionEdit) => e.nextFile, vs.savedNext)
    && Tells(vs.manifest, (e: VersionEdit) => e.lastSequence, vs.savedSequence)
  }

  lemma CurrentIsTold(vs: VersionSet)
    requires CountersCurrent(vs) && |vs.manifest| > 1
    ensures TellsCurrent(vs) && !CounterMissing(vs.manifest)
  {
    NotedTells(vs.manifest);
    ToldOrNever(vs.manifest, (e: VersionEdit) => e.logNumber, vs.logNumber);
    ToldOrNever(vs.manifest, (e: VersionEdit) => e.nextFile, vs.savedNext);
    ToldOrNever(vs.manifest, (e: VersionEdit) => e.lastSequence, vs.savedSequence);
  }

  lemma ToldCounters(vs: VersionSet, c: Counters)
    requires TellsCurrent(vs) && CountersTold(vs.manifest, c)
    ensures c.logNumber == vs.logNumber && c.prevLogNumber == vs.prevLogNumber
    ensures c.manifestNumber == vs.savedNext && c.lastSequence == vs.savedSequence
  {
    LastIsUnique(vs.manifest, (e: VersionEdit) => e.logNumber, c.logNumber, vs.logNumber);
    ToldOrNever(vs.manifest, (e: VersionEdit) => e.prevLogNumber, vs.prevLogNumber);
    LastIsUnique(vs.manifest, (e: VersionEdit) => e.prevLogNumber, c.prevLogNumber, vs.prevLogNumber);
    LastIsUnique(vs.manifest, (e: VersionEdit) => e.nextFile, c.manifestNumber, vs.savedNext);
    LastIsUnique(vs.manifest, (e: VersionEdit) => e.lastSequence, c.lastSequence, vs.savedSequence);
  }

  /**
   * In every state of every run, once an edit has been logged, the manifest's
   * bytes are read without an error, and whatever version and counters are made
   * of the edits read are the current ones: the lists of every level, although
   * one builder takes all the edits, the log numbers, and the numbers the last
   * LogAndApply saved.
   */
  lemma RecoverRebuildsCurrent(fm: Format, comparator: Bytes, crc: Checksum, states: seq<VersionSet>, i: nat, records: seq<Bytes>,
                               v: Version, c: Counters)
    requires Run(states) && i < |states| && |states[i].manifest| > 1
    requires Encodes(fm, comparator, states[i].manifest, records)
    requires forall l: nat | l < NUM_LEVELS :: AddedOnce({}, states[i].manifest, l)
    ensures var st := ReadManifest(fm, comparator, crc, Open(LogBytes(Writes(crc), 0, records)), Unread());
      && st.error.None? && !CounterMissing(st.edits)
      && (Built(st.edits, v) && CountersTold(st.edits, c) ==> Rebuilt(states[i], v, c))
  {
    RunKeepsManifestCurrent(states, i);
    ReadWholeManifest(fm, comparator, crc, states[i].manifest, records);
    CurrentIsTold(states[i]);
    if Built(states[i].manifest, v) && CountersTold(states[i].manifest, c) {
      CurrentIsBuilt(states[i], v);
      ToldCounters(states[i], c);
    }
  }

  /** Closing and reopening: Recover on the bytes of the run's manifest gives the state's version and counters back. */
  method Reopen(fm: Format, comparator: Bytes, crc: Checksum, ghost states: seq<VersionSet>, ghost i: nat, ghost records: seq<Bytes>, file: Bytes)
    returns (v: Version, c: Counters)
    requires Run(states) && i < |states| && |states[i].manifest| > 1
    requires Encodes(fm, comparator, states[i].manifest, records) && file == LogBytes(Writes(crc), 0, records)
    requires forall l: nat | l < NUM_LEVELS :: AddedOnce({}, states[i].manifest, l)
    ensures v == states[i].files && c.logNumber == states[i].logNumber && c.prevLogNumber == states[i].prevLogNumber
    ensures c.manifestNumber == states[i].savedNext && c.nextFile == states[i].savedNext + 1
    ensures c.lastSequence == states[i].savedSequence
  {
    var r := Recover(fm, comparator, crc, file);
    RecoverRebuildsCurrent(fm, comparator, crc, states, i, records, NoFiles(), Counters(0, 0, 0, 0, 0));
    RecoverRebuildsCurrent(fm, comparator, crc, states, i, records, r.value.0, r.value.1);
    v, c := r.value.0, r.value.1;
  }

  // ----- no number is given out twice -----

  /** Every number in use was given out before, and before the last LogAndApply. */
  ghost predicate NumbersIssued(vs: VersionSet) {
    && vs.savedNext <= vs.nextFile && (|vs.manifest| > 1 ==> NumbersBelow(vs, vs.savedNext)) && NumbersBelow(vs, vs.nextFile)
  }

  ghost predicate NumbersBelow(vs: VersionSet, bound: nat) {
    vs.logNumber < bound && forall l, f :: 0 <= l < NUM_LEVELS && f in vs.files[l] ==> f.number < bound
  }

  /** A step whose new files have numbers that were given out before it. */
  ghost predicate IssuedStep(vs: VersionSet, vs': VersionSet) {
    CountersAdvance(vs, vs')
    || exists edit :: Applied(vs, edit, vs') && forall l, f :: f in AddedAt(edit, l) ==> f.number < vs.nextFile
  }

  ghost predicate IssuedRun(states: seq<VersionSet>) {
    && states != [] && Snapshotted(states[0]) && NumbersIssued(states[0])
    && forall i :: 0 <= i < |states| - 1 ==> IssuedStep(states[i], states[i + 1])
  }

  lemma AppliedNumbers(vs: VersionSet, edit: VersionEdit, vs': VersionSet)
    requires NumbersIssued(vs) && Applied(vs, edit, vs') && forall l, f :: f in AddedAt(edit, l) ==> f.number < vs.nextFile
    ensures NumbersIssued(vs')
  {
    var done := Completed(vs, edit);
    forall l, f | 0 <= l < NUM_LEVELS && f in vs'.files[l] ensures f.number < vs.nextFile {
      ApplyForm(Fresh(), done, l);
      NewIsAdded(done, l);
      assert f in Elements(vs'.files[l]);
      assert AddedAt(done, l) == AddedAt(edit, l);
    }
  }

  lemma {:induction false} RunNumbersIssued(states: seq<VersionSet>, i: nat)
    requires IssuedRun(states) && i < |states|
    ensures NumbersIssued(states[i])
  {
    if i > 0 {
      RunNumbersIssued(states, i - 1);
      var vs, vs' := states[i - 1], states[i];
      assert IssuedStep(vs, vs');
      if !CountersAdvance(vs, vs') {
        var edit :| Applied(vs, edit, vs') && forall l, f :: f in AddedAt(edit, l) ==> f.number < vs.nextFile;
        AppliedNumbers(vs, edit, vs');
      }
    }
  }

  /**
   * After reopening, the numbers handed out next are free: every table of the
   * version, the log and the new manifest have smaller ones.
   */
  lemma RecoveredNumbersAreFree(states: seq<VersionSet>, i: nat, v: Version, c: Counters)
    requires IssuedRun(states) && i < |states| && |states[i].manifest| > 1 && Rebuilt(states[i], v, c)
    ensures c.logNumber < c.nextFile && c.manifestNumber < c.nextFile && c.logNumber != c.manifestNumber
    ensures forall l, f :: 0 <= l < NUM_LEVELS && f in v[l] ==> f.number < c.nextFile && f.number != c.manifestNumber
  {
    RunNumbersIssued(states, i);
  }
}
