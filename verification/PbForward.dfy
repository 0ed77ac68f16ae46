/**
 * Forward compatibility: a decoder that knows only some of a message's fields
 * passes over the records of the others and returns the fields it knows.
 */
module PbForward {
  import opened InternalKeys
  import opened PbVarints
  import opened PbSchema
  import opened PbFields
  import opened PbDecode
  import opened PbRoundTrip
  import opened PbWire

  // ----- skipping a record -----

  lemma {:induction false} SkipsVarint(b: Bytes, rest: Bytes)
    requires Terminated(b)
    ensures SkipVarint(b + rest) == Some(rest)
    decreases |b|
  {
    if |b| == 1 {
      assert (b + rest)[1..] == rest;
    } else {
      assert (b + rest)[1..] == b[1..] + rest;
      SkipsVarint(b[1..], rest);
    }
  }

  /** The wire type of a record and what follows its key. */
  function TypeOf(r: WireRecord): nat {
    match r
    case VARINT(_, _) => 0
    case I64(_, _) => 1
    case LEN(_, _) => 2
    case I32(_, _) => 5
  }

  function Body(w: Wire, r: WireRecord): Bytes {
    match r
    case VARINT(_, value) => w.put(value)
    case LEN(_, bytes) => w.put(|bytes|) + bytes
    case _ => r.bytes
  }

  lemma SkipsLen(w: Wire, bytes: Bytes, rest: Bytes)
    requires |bytes| < 0x1_0000_0000
    ensures SkipField(w, 2, w.put(|bytes|) + bytes + rest) == Some(rest)
  {
    assert w.put(|bytes|) + bytes + rest == w.put(|bytes|) + (bytes + rest);
    assert (bytes + rest)[|bytes|..] == rest;
  }

  lemma SkipsBody(w: Wire, r: WireRecord, rest: Bytes)
    requires RecordOk(r) && TerminatedVarints(w)
    ensures SkipField(w, TypeOf(r), Body(w, r) + rest) == Some(rest)
  {
    match r
    case VARINT(_, value) => SkipsVarint(w.put(value), rest);
    case LEN(_, bytes) => SkipsLen(w, bytes, rest);
    case I64(_, bytes) => assert (bytes + rest)[8..] == rest;
    case I32(_, bytes) => assert (bytes + rest)[4..] == rest;
  }

  lemma KeyComesFirst(w: Wire, r: WireRecord, rest: Bytes)
    requires RecordOk(r)
    ensures RecordBytes(w, r) + rest == w.put(8 * r.field + TypeOf(r)) + (Body(w, r) + rest)
  {
  }

  /** A record is read as its key, and skipping it consumes exactly that record. */
  lemma SkipConsumesRecord(w: Wire, r: WireRecord, rest: Bytes)
    requires RecordOk(r) && TerminatedVarints(w)
    ensures var b := RecordBytes(w, r) + rest;
      && b != [] && DecodeTag(w, b) == Head(r.field, TypeOf(r), Body(w, r) + rest)
      && SkipField(w, TypeOf(r), Body(w, r) + rest) == Some(rest) && SplitOne(w, b) == Some((r, rest))
  {
    SplitsRecord(w, r, rest);
    SkipsBody(w, r, rest);
    KeyComesFirst(w, r, rest);
    TagRoundTrip(w, r.field, TypeOf(r), Body(w, r) + rest);
  }

  /** The schema has no field of this number. */
  ghost predicate Unknown(s: Schema, field: nat) {
    forall i :: 0 <= i < Len(s) ==> FieldAt(s, i).tag != field
  }

  lemma UnknownNotFound(s: Schema, field: nat, pos: nat)
    requires Unknown(s, field)
    ensures FindFrom(s, pos, field) == None
  {
  }

  lemma LoopSkips(w: Wire, s: Schema, slots: seq<Slot>, p: Progress, r: WireRecord, rest: Bytes)
    requires TerminatedVarints(w) && |slots| == Len(s) && RecordOk(r) && Unknown(s, r.field)
    ensures DecodeLoop(w, s, slots, p, RecordBytes(w, r) + rest) == DecodeLoop(w, s, slots, p, rest)
  {
    SkipConsumesRecord(w, r, rest);
    UnknownNotFound(s, r.field, p.iter.pos);
  }

  /** Records of unknown fields leave the struct and the progress as they are. */
  lemma {:induction false} LoopSkipsAll(w: Wire, s: Schema, slots: seq<Slot>, p: Progress, rs: seq<WireRecord>, rest: Bytes)
    requires TerminatedVarints(w) && |slots| == Len(s) && AllOk(rs) && forall r <- rs :: Unknown(s, r.field)
    ensures DecodeLoop(w, s, slots, p, RecordsBytes(w, rs) + rest) == DecodeLoop(w, s, slots, p, rest)
    decreases |rs|
  {
    if rs == [] {
      assert RecordsBytes(w, rs) + rest == rest;
    } else {
      assert rs == [rs[0]] + rs[1..];
      assert RecordsBytes(w, rs) + rest == RecordBytes(w, rs[0]) + (RecordsBytes(w, rs[1..]) + rest);
      LoopSkips(w, s, slots, p, rs[0], RecordsBytes(w, rs[1..]) + rest);
      LoopSkipsAll(w, s, slots, p, rs[1..], rest);
    }
  }

  // ----- an older schema -----

  /** Which field numbers the decoder knows. */
  type Known = nat -> bool

  /** The fields of t it knows. */
  function Restrict(t: Schema, known: Known): Schema {
    if t.End? then End
    else if known(t.first.tag) then Fields(t.first, Restrict(t.rest, known))
    else Restrict(t.rest, known)
  }

  /** Their slots. */
  function RestrictSlots(t: Schema, m: seq<Slot>, known: Known): (r: seq<Slot>)
    requires |m| == Len(t)
    ensures |r| == Len(Restrict(t, known))
  {
    if t.End? then []
    else if known(t.first.tag) then [m[0]] + RestrictSlots(t.rest, m[1..], known)
    else RestrictSlots(t.rest, m[1..], known)
  }

  /** Where the j-th known field stands in t. */
  function Position(t: Schema, known: Known, j: nat): nat
    requires j < Len(Restrict(t, known))
  {
    if known(t.first.tag) then (if j == 0 then 0 else 1 + Position(t.rest, known, j - 1))
    else 1 + Position(t.rest, known, j)
  }

  lemma {:induction false} PositionOf(t: Schema, m: seq<Slot>, known: Known, j: nat)
    requires |m| == Len(t) && j < Len(Restrict(t, known))
    ensures var i := Position(t, known, j);
      && i < Len(t) && FieldAt(t, i) == FieldAt(Restrict(t, known), j) && m[i] == RestrictSlots(t, m, known)[j]
      && known(FieldAt(t, i).tag)
    decreases t
  {
    if known(t.first.tag) {
      if j > 0 {
        PositionOf(t.rest, m[1..], known, j - 1);
      }
    } else {
      PositionOf(t.rest, m[1..], known, j);
    }
  }

  lemma {:induction false} PositionRises(t: Schema, known: Known, j: nat, k: nat)
    requires j < k < Len(Restrict(t, known))
    ensures Position(t, known, j) < Position(t, known, k)
    decreases t
  {
    if known(t.first.tag) {
      if j > 0 {
        PositionRises(t.rest, known, j - 1, k - 1);
      }
    } else {
      PositionRises(t.rest, known, j, k);
    }
  }

  lemma {:induction false} RestrictFieldsOk(t: Schema, known: Known)
    requires FieldsOk(t)
    ensures FieldsOk(Restrict(t, known))
    decreases t
  {
    if t.Fields? {
      RestrictFieldsOk(t.rest, known);
    }
  }

  lemma RestrictOk(t: Schema, known: Known)
    requires SchemaOk(t)
    ensures SchemaOk(Restrict(t, known))
  {
    RestrictFieldsOk(t, known);
    var s := Restrict(t, known);
    forall j, k | 0 <= j < k < Len(s) ensures FieldAt(s, j).tag != FieldAt(s, k).tag {
      PositionOf(t, Defaults(t), known, j);
      PositionOf(t, Defaults(t), known, k);
      PositionRises(t, known, j, k);
    }
  }

  lemma RestrictExclusive(t: Schema, m: seq<Slot>, known: Known)
    requires |m| == Len(t) && Exclusive(t, m)
    ensures Exclusive(Restrict(t, known), RestrictSlots(t, m, known))
  {
    var s, r := Restrict(t, known), RestrictSlots(t, m, known);
    forall j, k | 0 <= j < k < Len(s) && FieldAt(s, j).rule.OneOf? && FieldAt(s, j).rule == FieldAt(s, k).rule
      ensures r[j] == Maybe(None) || r[k] == Maybe(None)
    {
      PositionOf(t, m, known, j);
      PositionOf(t, m, known, k);
      PositionRises(t, known, j, k);
    }
  }

  lemma UnknownOutside(t: Schema, known: Known, field: nat)
    requires !known(field)
    ensures Unknown(Restrict(t, known), field)
  {
    forall j: nat | j < Len(Restrict(t, known)) ensures FieldAt(Restrict(t, known), j).tag != field {
      PositionOf(t, Defaults(t), known, j);
    }
  }

  lemma {:induction false} EachOfField(w: Wire, f: Field, vs: seq<Value>)
    ensures forall r <- EachRecord(w, f, vs) :: r.field == f.tag
    decreases |vs|
  {
    if vs != [] {
      EachOfField(w, f, vs[1..]);
    }
  }

  lemma RecordsOfField(w: Wire, f: Field, s: Slot)
    ensures forall r <- SlotRecords(w, f, s) :: r.field == f.tag
  {
    if s.Many? {
      EachOfField(w, f, s.values);
    }
  }

  /** The bytes of a field the decoder does not know. */
  lemma LoopSkipsSlot(w: Wire, s: Schema, slots: seq<Slot>, p: Progress, f: Field, slot: Slot, rest: Bytes)
    requires TerminatedVarints(w) && |slots| == Len(s) && Unknown(s, f.tag) && FieldOk(f) && TypedSlot(w, f, slot)
    ensures DecodeLoop(w, s, slots, p, SlotBytes(w, f, slot) + rest) == DecodeLoop(w, s, slots, p, rest)
  {
    SlotIsRecords(w, f, slot);
    RecordsOfField(w, f, slot);
    LoopSkipsAll(w, s, slots, p, SlotRecords(w, f, slot), rest);
  }

  /** Field i of t is where the decoder's field j comes next. */
  ghost predicate Aligned(t: Schema, m: seq<Slot>, s: Schema, r: seq<Slot>, known: Known, i: nat, j: nat) {
    && |m| == Len(t) && |r| == Len(s) && i <= Len(t) && j <= Len(s) && Len(Drop(t, i)) == Len(t) - i
    && Drop(s, j) == Restrict(Drop(t, i), known) && r[j..] == RestrictSlots(Drop(t, i), m[i..], known)
  }

  lemma AlignedStart(t: Schema, m: seq<Slot>, known: Known)
    requires |m| == Len(t)
    ensures Aligned(t, m, Restrict(t, known), RestrictSlots(t, m, known), known, 0, 0)
  {
    assert m[0..] == m && RestrictSlots(t, m, known)[0..] == RestrictSlots(t, m, known);
  }

  lemma AlignedNext(t: Schema, m: seq<Slot>, s: Schema, r: seq<Slot>, known: Known, i: nat, j: nat)
    requires Aligned(t, m, s, r, known, i, j) && i < Len(t)
    ensures if known(FieldAt(t, i).tag)
      then j < Len(s) && FieldAt(s, j) == FieldAt(t, i) && r[j] == m[i] && Aligned(t, m, s, r, known, i + 1, j + 1)
      else Aligned(t, m, s, r, known, i + 1, j)
  {
    DropStep(t, i);
    DropLen(s, j);
    assert m[i..][1..] == m[i + 1..];
    if known(FieldAt(t, i).tag) {
      DropStep(s, j);
      assert r[j..][1..] == r[j + 1..];
    }
  }

  lemma AlignedEnd(t: Schema, m: seq<Slot>, s: Schema, r: seq<Slot>, known: Known, j: nat)
    requires Aligned(t, m, s, r, known, Len(t), j)
    ensures j == Len(s)
  {
    DropAll(t);
    DropLen(s, j);
  }

  lemma ForwardEnds(w: Wire, t: Schema, s: Schema, r: seq<Slot>, p: Progress)
    requires |r| == Len(s) && OkSoFar(s, p, Len(s))
    ensures DecodeLoop(w, s, Mixed(s, r, Len(s)), p, MessageBytes(w, Drop(t, Len(t)), [])) == Some((r, []))
  {
    DropAll(t);
    assert Mixed(s, r, Len(s)) == r;
    LoopEnds(w, s, r, p);
  }

  /** From field i of t, which is field j of what the decoder knows, on. */
  lemma {:induction false} ForwardFrom(w: Wire, t: Schema, m: seq<Slot>, s: Schema, r: seq<Slot>, known: Known, i: nat, j: nat, p: Progress)
    requires TerminatedVarints(w) && FieldsOk(t) && TypedSlots(w, t, m) && Aligned(t, m, s, r, known, i, j)
    requires SchemaOk(s) && Exclusive(s, r) && OkSoFar(s, p, j)
    requires forall field: nat | !known(field) :: Unknown(s, field)
    requires forall k: nat :: k < Len(t) ==> ValuesDecode(w, FieldAt(t, k).kind)
    ensures DecodeLoop(w, s, Mixed(s, r, j), p, MessageBytes(w, Drop(t, i), m[i..])) == Some((r, []))
    decreases Len(t) - i
  {
    if i == Len(t) {
      AlignedEnd(t, m, s, r, known, j);
      ForwardEnds(w, t, s, r, p);
      assert m[i..] == [];
    } else {
      AlignedNext(t, m, s, r, known, i, j);
      TypedAt(w, t, m, i);
      MessageBytesFrom(w, t, m, i);
      var rest := MessageBytes(w, Drop(t, i + 1), m[i + 1..]);
      if known(FieldAt(t, i).tag) {
        SchemaReachable(s, j);
        var p' := StepSlot(w, s, r, j, p, rest);
        ForwardFrom(w, t, m, s, r, known, i + 1, j + 1, p');
      } else {
        FieldAtOk(t, i);
        LoopSkipsSlot(w, s, Mixed(s, r, j), p, FieldAt(t, i), m[i], rest);
        ForwardFrom(w, t, m, s, r, known, i + 1, j, p);
      }
    }
  }

  /**
   * Whatever fields of a message a decoder knows: the encoding of any in-range
   * message decodes to the values of those fields, and every byte is consumed.
   */
  lemma ForwardCompatible(w: Wire, t: Schema, m: seq<Slot>, known: Known)
    requires TerminatedVarints(w) && SchemaOk(t) && TypedSlots(w, t, m) && Exclusive(t, m)
    ensures |m| == Len(t)
    ensures Decode(w, Restrict(t, known), MessageBytes(w, t, m)) == Some((RestrictSlots(t, m, known), []))
  {
    TypedLength(w, t, m);
    forall k: nat | k < Len(t) ensures ValuesDecode(w, FieldAt(t, k).kind) {
      FieldAtOk(t, k);
      KindRoundTrip(w, FieldAt(t, k).kind);
    }
    var s, r := Restrict(t, known), RestrictSlots(t, m, known);
    RestrictOk(t, known);
    RestrictExclusive(t, m, known);
    NothingWithin(0);
    AlignedStart(t, m, known);
    forall field: nat | !known(field) ensures Unknown(s, field) {
      UnknownOutside(t, known, field);
    }
    assert m[0..] == m && Mixed(s, r, 0) == Defaults(s);
    ForwardFrom(w, t, m, s, r, known, 0, 0, Start());
  }
}
