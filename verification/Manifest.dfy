/**
 * The manifest: `VersionEdit` in bytes, and `VersionSet::Recover`, which
 * rebuilds the current version from the edits the manifest holds.
 */
module Manifest {
  import opened InternalKeys
  import opened Versions
  import opened VersionBuilder
  import opened Coding

  // ----- the byte form of an edit -----

  const COMPARATOR: nat := 1
  const LOG_NUMBER: nat := 2
  const NEXT_FILE_NUMBER: nat := 3
  const LAST_SEQUENCE: nat := 4
  const COMPACTION_KEY: nat := 5
  const DELETED_FILE: nat := 6
  const NEW_FILE: nat := 7
  const PREV_LOG_NUMBER: nat := 9

  /** One tagged item of an encoded edit. */
  datatype Field =
    | Comparator(name: Bytes)
    | LogNumber(number: nat)
    | PrevLogNumber(number: nat)
    | NextFileNumber(number: nat)
    | LastSequence(number: nat)
    | CompactPointer(level: nat, key: InternalKey)
    | DeletedFile(level: nat, number: nat)
    | NewFile(level: nat, file: FileMeta)

  /** How numbers, strings and internal keys are written. */
  datatype Format = Format(c: Codec, putKey: InternalKey -> Bytes, getKey: Bytes -> InternalKey)

  function Tag(f: Field): nat {
    match f
    case Comparator(_) => COMPARATOR
    case LogNumber(_) => LOG_NUMBER
    case PrevLogNumber(_) => PREV_LOG_NUMBER
    case NextFileNumber(_) => NEXT_FILE_NUMBER
    case LastSequence(_) => LAST_SEQUENCE
    case CompactPointer(_, _) => COMPACTION_KEY
    case DeletedFile(_, _) => DELETED_FILE
    case NewFile(_, _) => NEW_FILE
  }

  function PutKey(fm: Format, k: InternalKey): Bytes {
    fm.c.putString(fm.putKey(k))
  }

  function PutFile(fm: Format, f: FileMeta): Bytes {
    fm.c.putVarint64(f.number) + (fm.c.putVarint64(f.size) + (PutKey(fm, f.smallest) + PutKey(fm, f.largest)))
  }

  function EncodeBody(fm: Format, f: Field): Bytes {
    match f
    case Comparator(name) => fm.c.putString(name)
    case LogNumber(n) => fm.c.putVarint64(n)
    case PrevLogNumber(n) => fm.c.putVarint64(n)
    case NextFileNumber(n) => fm.c.putVarint64(n)
    case LastSequence(n) => fm.c.putVarint64(n)
    case CompactPointer(level, key) => fm.c.putVarint32(level) + PutKey(fm, key)
    case DeletedFile(level, n) => fm.c.putVarint32(level) + fm.c.putVarint64(n)
    case NewFile(level, file) => fm.c.putVarint32(level) + PutFile(fm, file)
  }

  function EncodeField(fm: Format, f: Field): Bytes {
    fm.c.putVarint32(Tag(f)) + EncodeBody(fm, f)
  }

  function FieldWriter(fm: Format): Field -> Bytes {
    (f: Field) => EncodeField(fm, f)
  }

  function EncodeFields(fm: Format, fields: seq<Field>): Bytes {
    Flat(FieldWriter(fm), fields)
  }

  /** The scalar fields EncodeTo writes, in its order. */
  function Scalars(edit: VersionEdit): seq<Field> {
    (if edit.comparator.Some? then [Comparator(edit.comparator.value)] else [])
      + (if edit.logNumber.Some? then [LogNumber(edit.logNumber.value)] else [])
      + (if edit.prevLogNumber.Some? then [PrevLogNumber(edit.prevLogNumber.value)] else [])
      + (if edit.nextFile.Some? then [NextFileNumber(edit.nextFile.value)] else [])
      + (if edit.lastSequence.Some? then [LastSequence(edit.lastSequence.value)] else [])
  }

  /** The order EncodeTo writes an edit in; `deleted` lists its deleted files. */
  function FieldsOf(edit: VersionEdit, deleted: seq<(nat, nat)>): seq<Field> {
    Scalars(edit) + PointerFields(edit.compactPointers) + DeletedFields(deleted) + AddedFields(edit.added)
  }

  // ----- VersionEdit::DecodeFrom -----

  /** GetLevel: a level that does not exist is refused. */
  function GetLevel(fm: Format, input: Bytes): (r: Option<(nat, Bytes)>)
    ensures r.Some? ==> |r.value.1| < |input|
  {
    var r := fm.c.getVarint32(input);
    if r.Some? && r.value.0 < NUM_LEVELS then r else None
  }

  function GetKey(fm: Format, input: Bytes): (r: Option<(InternalKey, Bytes)>)
    ensures r.Some? ==> |r.value.1| < |input|
  {
    var r := fm.c.getString(input);
    if r.Some? then Some((fm.getKey(r.value.0), r.value.1)) else None
  }

  /** The file of a new-file entry, after its level. */
  function GetFile(fm: Format, input: Bytes): (r: Option<(FileMeta, Bytes)>)
    ensures r.Some? ==> |r.value.1| < |input|
  {
    var number := fm.c.getVarint64(input);
    if number.None? then None
    else
      var size := fm.c.getVarint64(number.value.1);
      if size.None? then None
      else
        var smallest := GetKey(fm, size.value.1);
        if smallest.None? then None
        else
          var largest := GetKey(fm, smallest.value.1);
          if largest.None? then None
          else Some((FileMeta(number.value.0, size.value.0, smallest.value.0, largest.value.0), largest.value.1))
  }

  datatype Decoded = Got(field: Field, rest: Bytes) | Malformed(message: string)

  function GetNumber(fm: Format, input: Bytes, field: nat -> Field, message: string): (r: Decoded)
    ensures r.Got? ==> |r.rest| < |input|
  {
    var n := fm.c.getVarint64(input);
    if n.None? then Malformed(message) else Got(field(n.value.0), n.value.1)
  }

  /** The switch on the tag. */
  function DecodeBody(fm: Format, tag: nat, input: Bytes): (r: Decoded)
    ensures r.Got? ==> |r.rest| < |input|
  {
    if tag == COMPARATOR then
      var s := fm.c.getString(input);
      if s.None? then Malformed("comparator name") else Got(Comparator(s.value.0), s.value.1)
    else if tag == LOG_NUMBER then GetNumber(fm, input, (n: nat) => LogNumber(n), "log number")
    else if tag == PREV_LOG_NUMBER then GetNumber(fm, input, (n: nat) => PrevLogNumber(n), "previous log number")
    else if tag == NEXT_FILE_NUMBER then GetNumber(fm, input, (n: nat) => NextFileNumber(n), "next file number")
    else if tag == LAST_SEQUENCE then GetNumber(fm, input, (n: nat) => LastSequence(n), "last sequence number")
    else if tag == COMPACTION_KEY then
      var level := GetLevel(fm, input);
      if level.None? then Malformed("compaction pointer")
      else
        var key := GetKey(fm, level.value.1);
        if key.None? then Malformed("compaction pointer") else Got(CompactPointer(level.value.0, key.value.0), key.value.1)
    else if tag == DELETED_FILE then
      var level := GetLevel(fm, input);
      if level.None? then Malformed("deleted file")
      else
        var n := fm.c.getVarint64(level.value.1);
        if n.None? then Malformed("deleted file") else Got(DeletedFile(level.value.0, n.value.0), n.value.1)
    else if tag == NEW_FILE then
      var level := GetLevel(fm, input);
      if level.None? then Malformed("new-file entry")
      else
        var f := GetFile(fm, level.value.1);
        if f.None? then Malformed("new-file entry") else Got(NewFile(level.value.0, f.value.0), f.value.1)
    else Malformed("unknown tag")
  }

  /** What a decoded field does to the edit. */
  function AddField(edit: VersionEdit, f: Field): VersionEdit {
    match f
    case Comparator(name) => edit.(comparator := Some(name))
    case LogNumber(n) => edit.(logNumber := Some(n))
    case PrevLogNumber(n) => edit.(prevLogNumber := Some(n))
    case NextFileNumber(n) => edit.(nextFile := Some(n))
    case LastSequence(n) => edit.(lastSequence := Some(n))
    case CompactPointer(level, key) => edit.(compactPointers := edit.compactPointers + [(level, key)])
    case DeletedFile(level, n) => edit.(deleted := edit.deleted + {(level, n)})
    case NewFile(level, file) => edit.(added := edit.added + [(level, file)])
  }

  /** The decoding loop from `input` on: the edit filled so far and, on failure, the message. */
  function DecodeRest(fm: Format, input: Bytes, edit: VersionEdit): (VersionEdit, Option<string>)
    decreases |input|
  {
    var tag := fm.c.getVarint32(input);
    if tag.None? then (edit, if input == [] then None else Some("invalid tag"))
    else
      match DecodeBody(fm, tag.value.0, tag.value.1)
      case Malformed(message) => (edit, Some(message))
      case Got(field, rest) => DecodeRest(fm, rest, AddField(edit, field))
  }

  lemma BodyLevels(fm: Format, tag: nat, input: Bytes, edit: VersionEdit)
    requires LevelsExist(edit) && DecodeBody(fm, tag, input).Got?
    ensures LevelsExist(AddField(edit, DecodeBody(fm, tag, input).field))
  {
  }

  /** Whatever the bytes, a decoded edit names existing levels only. */
  lemma {:induction false} DecodedLevels(fm: Format, input: Bytes, edit: VersionEdit)
    requires LevelsExist(edit)
    ensures LevelsExist(DecodeRest(fm, input, edit).0)
    decreases |input|
  {
    var tag := fm.c.getVarint32(input);
    if tag.Some? {
      var d := DecodeBody(fm, tag.value.0, tag.value.1);
      if d.Got? {
        BodyLevels(fm, tag.value.0, tag.value.1, edit);
        DecodedLevels(fm, d.rest, AddField(edit, d.field));
      }
    }
  }

  /** Clear leaves the compaction pointers as they are. */
  function Cleared(edit: VersionEdit): VersionEdit {
    VersionEdit(None, None, None, None, None, edit.compactPointers, {}, [])
  }

  /** DecodeFrom fills the edit; on failure it says what is wrong. */
  method DecodeFrom(fm: Format, receiver: VersionEdit, src: Bytes) returns (edit: VersionEdit, error: Option<string>)
    ensures (edit, error) == DecodeRest(fm, src, Cleared(receiver))
  {
    edit := Cleared(receiver);
    var input := src;
    var tag := fm.c.getVarint32(input);
    while tag.Some?
      invariant tag == fm.c.getVarint32(input)
      invariant DecodeRest(fm, src, Cleared(receiver)) == DecodeRest(fm, input, edit)
      decreases |input|
    {
      match DecodeBody(fm, tag.value.0, tag.value.1)
      case Malformed(message) => return edit, Some(message);
      case Got(field, rest) =>
        edit := AddField(edit, field);
        input := rest;
        tag := fm.c.getVarint32(input);
    }
    error := if input == [] then None else Some("invalid tag");
  }

  // ----- round trip -----

  predicate KeyOk(fm: Format, k: InternalKey) {
    fm.getKey(fm.putKey(k)) == k && |fm.putKey(k)| < 0x1_0000_0000
  }

  /** Numbers, levels, strings and keys that have an encoding. */
  predicate FieldOk(fm: Format, f: Field) {
    match f
    case Comparator(name) => |name| < 0x1_0000_0000
    case CompactPointer(level, key) => level < NUM_LEVELS && KeyOk(fm, key)
    case DeletedFile(level, n) => level < NUM_LEVELS && n < 0x1_0000_0000_0000_0000
    case NewFile(level, file) => level < NUM_LEVELS && FileOk(fm, file)
    case _ => f.number < 0x1_0000_0000_0000_0000
  }

  predicate FileOk(fm: Format, f: FileMeta) {
    f.number < 0x1_0000_0000_0000_0000 && f.size < 0x1_0000_0000_0000_0000 && KeyOk(fm, f.smallest) && KeyOk(fm, f.largest)
  }

  lemma KeyRoundTrip(fm: Format, k: InternalKey, rest: Bytes)
    requires KeyOk(fm, k)
    ensures GetKey(fm, PutKey(fm, k) + rest) == Some((k, rest))
  {
  }

  lemma FileRoundTrip(fm: Format, f: FileMeta, rest: Bytes)
    requires FileOk(fm, f)
    ensures GetFile(fm, PutFile(fm, f) + rest) == Some((f, rest))
  {
    var last := PutKey(fm, f.largest) + rest;
    var keys := PutKey(fm, f.smallest) + last;
    var size := fm.c.putVarint64(f.size) + keys;
    assert PutFile(fm, f) + rest == fm.c.putVarint64(f.number) + size;
    KeyRoundTrip(fm, f.smallest, last);
    KeyRoundTrip(fm, f.largest, rest);
  }

  lemma LevelRoundTrip(fm: Format, level: nat, rest: Bytes)
    requires level < NUM_LEVELS
    ensures GetLevel(fm, fm.c.putVarint32(level) + rest) == Some((level, rest))
  {
  }

  lemma PointerRoundTrip(fm: Format, level: nat, key: InternalKey, rest: Bytes)
    requires level < NUM_LEVELS && KeyOk(fm, key)
    ensures DecodeBody(fm, COMPACTION_KEY, fm.c.putVarint32(level) + PutKey(fm, key) + rest) == Got(CompactPointer(level, key), rest)
  {
    var more := PutKey(fm, key) + rest;
    assert fm.c.putVarint32(level) + PutKey(fm, key) + rest == fm.c.putVarint32(level) + more;
    LevelRoundTrip(fm, level, more);
    KeyRoundTrip(fm, key, rest);
  }

  lemma DeletedRoundTrip(fm: Format, level: nat, n: nat, rest: Bytes)
    requires level < NUM_LEVELS && n < 0x1_0000_0000_0000_0000
    ensures DecodeBody(fm, DELETED_FILE, fm.c.putVarint32(level) + fm.c.putVarint64(n) + rest) == Got(DeletedFile(level, n), rest)
  {
    var more := fm.c.putVarint64(n) + rest;
    assert fm.c.putVarint32(level) + fm.c.putVarint64(n) + rest == fm.c.putVarint32(level) + more;
    LevelRoundTrip(fm, level, more);
  }

  lemma NewFileRoundTrip(fm: Format, level: nat, file: FileMeta, rest: Bytes)
    requires level < NUM_LEVELS && FileOk(fm, file)
    ensures DecodeBody(fm, NEW_FILE, fm.c.putVarint32(level) + PutFile(fm, file) + rest) == Got(NewFile(level, file), rest)
  {
    var more := PutFile(fm, file) + rest;
    assert fm.c.putVarint32(level) + PutFile(fm, file) + rest == fm.c.putVarint32(level) + more;
    LevelRoundTrip(fm, level, more);
    FileRoundTrip(fm, file, rest);
  }

  lemma BodyRoundTrip(fm: Format, f: Field, rest: Bytes)
    requires FieldOk(fm, f)
    ensures DecodeBody(fm, Tag(f), EncodeBody(fm, f) + rest) == Got(f, rest)
  {
    match f
    case CompactPointer(level, key) => PointerRoundTrip(fm, level, key, rest);
    case DeletedFile(level, n) => DeletedRoundTrip(fm, level, n, rest);
    case NewFile(level, file) => NewFileRoundTrip(fm, level, file, rest);
    case _ =>
  }

  function AddFields(edit: VersionEdit, fields: seq<Field>): VersionEdit
    decreases |fields|
  {
    if fields == [] then edit else AddFields(AddField(edit, fields[0]), fields[1..])
  }

  lemma DecodeOne(fm: Format, f: Field, rest: Bytes, edit: VersionEdit)
    requires FieldOk(fm, f)
    ensures DecodeRest(fm, EncodeField(fm, f) + rest, edit) == DecodeRest(fm, rest, AddField(edit, f))
  {
    assert EncodeField(fm, f) + rest == fm.c.putVarint32(Tag(f)) + (EncodeBody(fm, f) + rest);
    BodyRoundTrip(fm, f, rest);
  }

  /** Decoding replays the fields in the order they were written. */
  lemma {:induction false} DecodeFields(fm: Format, fields: seq<Field>, edit: VersionEdit)
    requires forall f <- fields :: FieldOk(fm, f)
    ensures DecodeRest(fm, EncodeFields(fm, fields), edit) == (AddFields(edit, fields), None)
    decreases |fields|
  {
    if fields != [] {
      DecodeOne(fm, fields[0], EncodeFields(fm, fields[1..]), edit);
      DecodeFields(fm, fields[1..], AddField(edit, fields[0]));
    }
  }

  lemma {:induction false} AddFieldsSplit(edit: VersionEdit, a: seq<Field>, b: seq<Field>)
    ensures AddFields(edit, a + b) == AddFields(AddFields(edit, a), b)
    decreases |a|
  {
    if a == [] {
      assert a + b == b;
    } else {
      assert (a + b)[1..] == a[1..] + b;
      AddFieldsSplit(AddField(edit, a[0]), a[1..], b);
    }
  }

  function PointerFields(ps: seq<(nat, InternalKey)>): (fs: seq<Field>)
    ensures |fs| == |ps|
  {
    seq(|ps|, i requires 0 <= i < |ps| => CompactPointer(ps[i].0, ps[i].1))
  }

  function DeletedFields(ds: seq<(nat, nat)>): (fs: seq<Field>)
    ensures |fs| == |ds|
  {
    seq(|ds|, i requires 0 <= i < |ds| => DeletedFile(ds[i].0, ds[i].1))
  }

  function AddedFields(fs: seq<(nat, FileMeta)>): (r: seq<Field>)
    ensures |r| == |fs|
  {
    seq(|fs|, i requires 0 <= i < |fs| => NewFile(fs[i].0, fs[i].1))
  }

  lemma {:induction false} AddPointers(edit: VersionEdit, ps: seq<(nat, InternalKey)>)
    ensures AddFields(edit, PointerFields(ps)) == edit.(compactPointers := edit.compactPointers + ps)
    decreases |ps|
  {
    if ps == [] {
      assert edit.compactPointers + ps == edit.compactPointers;
    } else {
      assert PointerFields(ps)[1..] == PointerFields(ps[1..]);
      AddPointers(AddField(edit, PointerFields(ps)[0]), ps[1..]);
      assert edit.compactPointers + [ps[0]] + ps[1..] == edit.compactPointers + ps;
    }
  }

  lemma {:induction false} AddDeleted(edit: VersionEdit, ds: seq<(nat, nat)>)
    ensures AddFields(edit, DeletedFields(ds)) == edit.(deleted := edit.deleted + set d | d in ds)
    decreases |ds|
  {
    if ds == [] {
      assert edit.deleted + (set d | d in ds) == edit.deleted;
    } else {
      assert DeletedFields(ds)[1..] == DeletedFields(ds[1..]);
      AddDeleted(AddField(edit, DeletedFields(ds)[0]), ds[1..]);
      assert ds == [ds[0]] + ds[1..];
      assert edit.deleted + {ds[0]} + (set d | d in ds[1..]) == edit.deleted + set d | d in ds;
    }
  }

  lemma {:induction false} AddAdded(edit: VersionEdit, fs: seq<(nat, FileMeta)>)
    ensures AddFields(edit, AddedFields(fs)) == edit.(added := edit.added + fs)
    decreases |fs|
  {
    if fs == [] {
      assert edit.added + fs == edit.added;
    } else {
      assert AddedFields(fs)[1..] == AddedFields(fs[1..]);
      AddAdded(AddField(edit, AddedFields(fs)[0]), fs[1..]);
      assert edit.added + [fs[0]] + fs[1..] == edit.added + fs;
    }
  }

  lemma AtMostOne(edit: VersionEdit, fields: seq<Field>)
    requires |fields| <= 1
    ensures AddFields(edit, fields) == if fields == [] then edit else AddField(edit, fields[0])
  {
    if fields != [] {
      assert fields[1..] == [];
    }
  }

  /** Adding the scalar fields of an edit to a cleared one. */
  lemma AddScalars(was: VersionEdit, edit: VersionEdit)
    ensures AddFields(Cleared(was), Scalars(edit))
         == edit.(compactPointers := was.compactPointers, deleted := {}, added := [])
  {
    var a := if edit.comparator.Some? then [Comparator(edit.comparator.value)] else [];
    var b := if edit.logNumber.Some? then [LogNumber(edit.logNumber.value)] else [];
    var c := if edit.prevLogNumber.Some? then [PrevLogNumber(edit.prevLogNumber.value)] else [];
    var d := if edit.nextFile.Some? then [NextFileNumber(edit.nextFile.value)] else [];
    var e := if edit.lastSequence.Some? then [LastSequence(edit.lastSequence.value)] else [];
    var start := Cleared(was);
    AddFieldsSplit(start, a + b + c + d, e);
    AddFieldsSplit(start, a + b + c, d);
    AddFieldsSplit(start, a + b, c);
    AddFieldsSplit(start, a, b);
    AtMostOne(start, a);
    AtMostOne(AddFields(start, a), b);
    AtMostOne(AddFields(start, a + b), c);
    AtMostOne(AddFields(start, a + b + c), d);
    AtMostOne(AddFields(start, a + b + c + d), e);
  }

  /** Rebuilding: the fields of an edit, added to a cleared edit, give that edit back. */
  lemma FieldsRebuild(was: VersionEdit, edit: VersionEdit, deleted: seq<(nat, nat)>)
    requires edit.deleted == set d | d in deleted
    ensures AddFields(Cleared(was), FieldsOf(edit, deleted))
         == edit.(compactPointers := was.compactPointers + edit.compactPointers)
  {
    var a, b, c, d := Scalars(edit), PointerFields(edit.compactPointers), DeletedFields(deleted), AddedFields(edit.added);
    var start := Cleared(was);
    AddFieldsSplit(start, a + b + c, d);
    AddFieldsSplit(start, a + b, c);
    AddFieldsSplit(start, a, b);
    AddScalars(was, edit);
    AddPointers(AddFields(start, a), edit.compactPointers);
    AddDeleted(AddFields(start, a + b), deleted);
    AddAdded(AddFields(start, a + b + c), edit.added);
  }

  /** An edit whose numbers, levels, strings and keys all have an encoding. */
  predicate EditOk(fm: Format, edit: VersionEdit) {
    && (forall f <- Scalars(edit) :: FieldOk(fm, f))
    && (forall p <- edit.compactPointers :: FieldOk(fm, CompactPointer(p.0, p.1)))
    && (forall d <- edit.deleted :: FieldOk(fm, DeletedFile(d.0, d.1)))
    && (forall a <- edit.added :: FieldOk(fm, NewFile(a.0, a.1)))
  }

  /** `deleted` lists the deleted files of the edit. */
  ghost predicate Lists(deleted: seq<(nat, nat)>, edit: VersionEdit) {
    edit.deleted == set d | d in deleted
  }

  lemma FieldsAreOk(fm: Format, edit: VersionEdit, deleted: seq<(nat, nat)>)
    requires EditOk(fm, edit) && Lists(deleted, edit)
    ensures forall f <- FieldsOf(edit, deleted) :: FieldOk(fm, f)
  {
    forall f | f in PointerFields(edit.compactPointers) ensures FieldOk(fm, f) {
      var i :| 0 <= i < |edit.compactPointers| && PointerFields(edit.compactPointers)[i] == f;
      assert edit.compactPointers[i] in edit.compactPointers;
    }
    forall f | f in DeletedFields(deleted) ensures FieldOk(fm, f) {
      var i :| 0 <= i < |deleted| && DeletedFields(deleted)[i] == f;
      assert deleted[i] in edit.deleted;
    }
    forall f | f in AddedFields(edit.added) ensures FieldOk(fm, f) {
      var i :| 0 <= i < |edit.added| && AddedFields(edit.added)[i] == f;
      assert edit.added[i] in edit.added;
    }
  }

  /**
   * Round trip: decoding an encoded edit gives it back, except that compaction
   * pointers already in the receiving edit stay in front.
   */
  lemma EditRoundTrip(fm: Format, was: VersionEdit, edit: VersionEdit, deleted: seq<(nat, nat)>)
    requires EditOk(fm, edit) && Lists(deleted, edit)
    ensures DecodeRest(fm, EncodeFields(fm, FieldsOf(edit, deleted)), Cleared(was))
         == (edit.(compactPointers := was.compactPointers + edit.compactPointers), None)
  {
    FieldsAreOk(fm, edit, deleted);
    DecodeFields(fm, FieldsOf(edit, deleted), Cleared(was));
    FieldsRebuild(was, edit, deleted);
  }

  // ----- VersionEdit::EncodeTo -----

  lemma EncodeSnoc(fm: Format, a: seq<Field>, f: Field)
    ensures EncodeFields(fm, a + [f]) == EncodeFields(fm, a) + EncodeField(fm, f)
  {
    FlatAppend(FieldWriter(fm), a, [f]);
    FlatOne(FieldWriter(fm), [f]);
  }

  /** Append one field to what is already written. */
  method Append(fm: Format, dst: Bytes, f: Field, ghost written: seq<Field>) returns (r: Bytes)
    requires dst == EncodeFields(fm, written)
    ensures r == EncodeFields(fm, written + [f])
  {
    EncodeSnoc(fm, written, f);
    r := dst + EncodeField(fm, f);
  }

  method AppendIf(fm: Format, dst: Bytes, f: Option<Field>, ghost written: seq<Field>) returns (r: Bytes)
    requires dst == EncodeFields(fm, written)
    ensures r == EncodeFields(fm, written + if f.Some? then [f.value] else [])
  {
    r := dst;
    assert written + [] == written;
    if f.Some? {
      r := Append(fm, dst, f.value, written);
    }
  }

  method EncodeScalars(fm: Format, edit: VersionEdit) returns (dst: Bytes)
    ensures dst == EncodeFields(fm, Scalars(edit))
  {
    var name := if edit.comparator.Some? then Some(Comparator(edit.comparator.value)) else None;
    var log := if edit.logNumber.Some? then Some(LogNumber(edit.logNumber.value)) else None;
    var prev := if edit.prevLogNumber.Some? then Some(PrevLogNumber(edit.prevLogNumber.value)) else None;
    var next := if edit.nextFile.Some? then Some(NextFileNumber(edit.nextFile.value)) else None;
    var last := if edit.lastSequence.Some? then Some(LastSequence(edit.lastSequence.value)) else None;
    ghost var a := if name.Some? then [name.value] else [];
    ghost var b := a + if log.Some? then [log.value] else [];
    ghost var c := b + if prev.Some? then [prev.value] else [];
    ghost var d := c + if next.Some? then [next.value] else [];
    assert [] + a == a;
    dst := AppendIf(fm, [], name, []);
    dst := AppendIf(fm, dst, log, a);
    dst := AppendIf(fm, dst, prev, b);
    dst := AppendIf(fm, dst, next, c);
    dst := AppendIf(fm, dst, last, d);
  }

  method EncodePointers(fm: Format, ps: seq<(nat, InternalKey)>, before: Bytes, ghost written: seq<Field>) returns (dst: Bytes)
    requires before == EncodeFields(fm, written)
    ensures dst == EncodeFields(fm, written + PointerFields(ps))
  {
    dst := before;
    ghost var all := PointerFields(ps);
    assert written + all[..0] == written;
    for i := 0 to |ps|
      invariant dst == EncodeFields(fm, written + all[..i])
    {
      dst := Append(fm, dst, CompactPointer(ps[i].0, ps[i].1), written + all[..i]);
      assert written + all[..i] + [all[i]] == written + all[..i + 1];
    }
    assert all[..|ps|] == all;
  }

  method EncodeAdded(fm: Format, fs: seq<(nat, FileMeta)>, before: Bytes, ghost written: seq<Field>) returns (dst: Bytes)
    requires before == EncodeFields(fm, written)
    ensures dst == EncodeFields(fm, written + AddedFields(fs))
  {
    dst := before;
    ghost var all := AddedFields(fs);
    assert written + all[..0] == written;
    for i := 0 to |fs|
      invariant dst == EncodeFields(fm, written + all[..i])
    {
      dst := Append(fm, dst, NewFile(fs[i].0, fs[i].1), written + all[..i]);
      assert written + all[..i] + [all[i]] == written + all[..i + 1];
    }
    assert all[..|fs|] == all;
  }

  predicate PairBefore(a: (nat, nat), b: (nat, nat)) {
    a.0 < b.0 || (a.0 == b.0 && a.1 < b.1)
  }

  /** The order a std::set of pairs is iterated in. */
  ghost predicate InOrder(ds: seq<(nat, nat)>) {
    forall i, j :: 0 <= i < j < |ds| ==> PairBefore(ds[i], ds[j])
  }

  lemma LeastPair(s: set<(nat, nat)>) returns (least: (nat, nat))
    requires s != {}
    ensures least in s && forall d <- s :: d == least || PairBefore(least, d)
    decreases |s|
  {
    var d :| d in s;
    least := d;
    var rest := s - {d};
    assert forall e <- s :: e == d || e in rest;
    if rest != {} {
      var other := LeastPair(rest);
      if PairBefore(other, d) {
        least := other;
      }
    }
  }

  /** Part way through the iteration of a set: what is listed comes before what is left. */
  ghost predicate Listed(ds: set<(nat, nat)>, todo: set<(nat, nat)>, listed: seq<(nat, nat)>) {
    && todo <= ds && ds - todo == (set d | d in listed) && InOrder(listed)
    && forall d, e :: d in listed && e in todo ==> PairBefore(d, e)
  }

  lemma ListLeast(ds: set<(nat, nat)>, todo: set<(nat, nat)>, listed: seq<(nat, nat)>, d: (nat, nat))
    requires Listed(ds, todo, listed) && d in todo && forall e <- todo :: e == d || PairBefore(d, e)
    ensures Listed(ds, todo - {d}, listed + [d])
  {
    var more := listed + [d];
    assert (set e | e in more) == (set e | e in listed) + {d};
    assert ds - (todo - {d}) == (ds - todo) + {d};
    forall i, j | 0 <= i < j < |more| ensures PairBefore(more[i], more[j]) {
      assert more[i] in listed;
    }
  }

  method EncodeDeleted(fm: Format, ds: set<(nat, nat)>, before: Bytes, ghost written: seq<Field>)
    returns (dst: Bytes, ghost listed: seq<(nat, nat)>)
    requires before == EncodeFields(fm, written)
    ensures InOrder(listed) && ds == set d | d in listed
    ensures dst == EncodeFields(fm, written + DeletedFields(listed))
  {
    dst, listed := before, [];
    assert written + DeletedFields([]) == written;
    var todo := ds;
    while todo != {}
      invariant Listed(ds, todo, listed)
      invariant dst == EncodeFields(fm, written + DeletedFields(listed))
      decreases todo
    {
      ghost var least := LeastPair(todo);
      var d :| d in todo && forall e <- todo :: e == d || PairBefore(d, e);
      dst := Append(fm, dst, DeletedFile(d.0, d.1), written + DeletedFields(listed));
      DeletedSnoc(written, listed, d);
      ListLeast(ds, todo, listed, d);
      listed := listed + [d];
      todo := todo - {d};
    }
    assert ds - todo == ds;
  }

  lemma DeletedSnoc(written: seq<Field>, listed: seq<(nat, nat)>, d: (nat, nat))
    ensures written + DeletedFields(listed) + [DeletedFile(d.0, d.1)] == written + DeletedFields(listed + [d])
  {
    assert DeletedFields(listed + [d]) == DeletedFields(listed) + [DeletedFile(d.0, d.1)];
  }

  /** `record` is the edit's fields, the deleted files in ascending order. */
  ghost predicate EncodedAs(fm: Format, edit: VersionEdit, record: Bytes) {
    exists listed :: InOrder(listed) && Lists(listed, edit) && record == EncodeFields(fm, FieldsOf(edit, listed))
  }

  /** EncodeTo: scalars, compaction pointers, deleted files in ascending order, new files. */
  method EncodeTo(fm: Format, edit: VersionEdit) returns (dst: Bytes)
    ensures EncodedAs(fm, edit, dst)
  {
    dst := EncodeScalars(fm, edit);
    dst := EncodePointers(fm, edit.compactPointers, dst, Scalars(edit));
    ghost var written := Scalars(edit) + PointerFields(edit.compactPointers);
    ghost var listed;
    dst, listed := EncodeDeleted(fm, edit.deleted, dst, written);
    dst := EncodeAdded(fm, edit.added, dst, written + DeletedFields(listed));
    assert Lists(listed, edit) && dst == EncodeFields(fm, FieldsOf(edit, listed));
  }

  ghost predicate SamePairs(a: seq<(nat, nat)>, b: seq<(nat, nat)>) {
    forall d :: d in a <==> d in b
  }

  /** The ascending listing of a set of pairs is determined by the set. */
  lemma {:induction false} ListingUnique(a: seq<(nat, nat)>, b: seq<(nat, nat)>)
    requires InOrder(a) && InOrder(b) && SamePairs(a, b)
    ensures a == b
    decreases |a|
  {
    if a == [] {
      HasPair(b);
    } else {
      assert a[0] in b;
      FirstIsLeast(a, b);
      FirstIsLeast(b, a);
      TailListing(a);
      TailListing(b);
      ListingUnique(a[1..], b[1..]);
      assert a == [a[0]] + a[1..] && b == [b[0]] + b[1..];
    }
  }

  lemma HasPair(b: seq<(nat, nat)>)
    ensures b == [] || exists d :: d in b
  {
    if b != [] {
      assert b[0] in b;
    }
  }

  lemma FirstIsLeast(a: seq<(nat, nat)>, b: seq<(nat, nat)>)
    requires a != [] && b != [] && InOrder(a) && SamePairs(a, b)
    ensures a[0] == b[0] || PairBefore(a[0], b[0])
  {
    assert b[0] in a;
    var i :| 0 <= i < |a| && a[i] == b[0];
  }

  lemma TailListing(a: seq<(nat, nat)>)
    requires a != [] && InOrder(a)
    ensures InOrder(a[1..]) && forall d :: d in a[1..] <==> d in a && d != a[0]
  {
    assert a == [a[0]] + a[1..];
    forall d | d in a[1..] ensures d != a[0] {
      var i :| 0 <= i < |a[1..]| && a[1..][i] == d;
      assert a[i + 1] == d && PairBefore(a[0], a[i + 1]);
    }
  }

  /** An edit has one encoding. */
  lemma EncodingIsUnique(fm: Format, edit: VersionEdit, a: Bytes, b: Bytes)
    requires EncodedAs(fm, edit, a) && EncodedAs(fm, edit, b)
    ensures a == b
  {
    var x :| InOrder(x) && Lists(x, edit) && a == EncodeFields(fm, FieldsOf(edit, x));
    var y :| InOrder(y) && Lists(y, edit) && b == EncodeFields(fm, FieldsOf(edit, y));
    forall d ensures d in x <==> d in y {
      assert d in x <==> d in edit.deleted;
      assert d in y <==> d in edit.deleted;
    }
    ListingUnique(x, y);
  }

  /** The tags on disk, both ways; 8 was used once and means nothing now. */
  lemma TagsOnDisk(fm: Format, f: Field, input: Bytes)
    requires FieldOk(fm, f)
    ensures Tag(f) == (match f
      case Comparator(_) => 1
      case LogNumber(_) => 2
      case NextFileNumber(_) => 3
      case LastSequence(_) => 4
      case CompactPointer(_, _) => 5
      case DeletedFile(_, _) => 6
      case NewFile(_, _) => 7
      case PrevLogNumber(_) => 9)
    ensures DecodeBody(fm, Tag(f), EncodeBody(fm, f) + input) == Got(f, input)
    ensures DecodeBody(fm, 8, input).Malformed?
  {
    BodyRoundTrip(fm, f, input);
  }
}
