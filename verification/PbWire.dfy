/**
 * The wire format on its own, without any schema: records as the Protocol
 * Buffers Encoding specification lays them out, and the proof that what the
 * encoder writes for a message is exactly the records of its fields.
 */
module PbWire {
  import opened InternalKeys
  import opened Coding
  import opened PbVarints
  import opened PbSchema

  /** Section "Message Structure": wire types 0, 1, 2 and 5. */
  datatype WireRecord =
    | VARINT(field: nat, value: nat)
    | I64(field: nat, bytes: Bytes)
    | LEN(field: nat, bytes: Bytes)
    | I32(field: nat, bytes: Bytes)

  predicate RecordOk(r: WireRecord) {
    && 0 < r.field < 0x2000_0000
    && (r.VARINT? ==> r.value < 0x1_0000_0000_0000_0000)
    && (r.I64? ==> |r.bytes| == 8) && (r.LEN? ==> |r.bytes| < 0x1_0000_0000) && (r.I32? ==> |r.bytes| == 4)
  }

  /** A key varint, then the payload. */
  function RecordBytes(w: Wire, r: WireRecord): Bytes {
    match r
    case VARINT(field, value) => w.put(8 * field + 0) + w.put(value)
    case I64(field, bytes) => w.put(8 * field + 1) + bytes
    case LEN(field, bytes) => w.put(8 * field + 2) + (w.put(|bytes|) + bytes)
    case I32(field, bytes) => w.put(8 * field + 5) + bytes
  }

  function RecordsBytes(w: Wire, rs: seq<WireRecord>): Bytes {
    if rs == [] then [] else RecordBytes(w, rs[0]) + RecordsBytes(w, rs[1..])
  }

  /** A reader that knows no schema takes one record off the front. */
  function SplitOne(w: Wire, b: Bytes): (r: Option<(WireRecord, Bytes)>)
    ensures r.Some? ==> |r.value.1| < |b|
  {
    var key := w.get64(b);
    if key.None? then None
    else
      var field, rest := key.value.0 / 8, key.value.1;
      match key.value.0 % 8
      case 0 =>
        var v := w.get64(rest);
        if v.None? then None else Some((VARINT(field, v.value.0), v.value.1))
      case 1 => if |rest| < 8 then None else Some((I64(field, rest[..8]), rest[8..]))
      case 2 =>
        var n := w.get64(rest);
        if n.None? || n.value.0 > |n.value.1| then None
        else Some((LEN(field, n.value.1[..n.value.0]), n.value.1[n.value.0..]))
      case 5 => if |rest| < 4 then None else Some((I32(field, rest[..4]), rest[4..]))
      case _ => None
  }

  function Split(w: Wire, b: Bytes): Option<seq<WireRecord>>
    decreases |b|
  {
    if b == [] then Some([])
    else
      var one := SplitOne(w, b);
      if one.None? then None
      else
        var more := Split(w, one.value.1);
        if more.None? then None else Some([one.value.0] + more.value)
  }

  lemma KeyIsRead(w: Wire, field: nat, wiretype: nat, payload: Bytes, rest: Bytes)
    requires field < 0x2000_0000 && wiretype < 8
    ensures var b := w.put(8 * field + wiretype) + payload + rest;
      w.get64(b) == Some((8 * field + wiretype, payload + rest)) && b != []
    ensures (8 * field + wiretype) / 8 == field && (8 * field + wiretype) % 8 == wiretype
  {
    assert w.put(8 * field + wiretype) + payload + rest == w.put(8 * field + wiretype) + (payload + rest);
  }

  lemma SplitsLen(w: Wire, field: nat, bytes: Bytes, rest: Bytes)
    requires field < 0x2000_0000 && |bytes| < 0x1_0000_0000
    ensures SplitOne(w, RecordBytes(w, LEN(field, bytes)) + rest) == Some((LEN(field, bytes), rest))
  {
    KeyIsRead(w, field, 2, w.put(|bytes|) + bytes, rest);
    assert w.put(|bytes|) + bytes + rest == w.put(|bytes|) + (bytes + rest);
    assert (bytes + rest)[..|bytes|] == bytes && (bytes + rest)[|bytes|..] == rest;
  }

  lemma SplitsEight(w: Wire, field: nat, bytes: Bytes, rest: Bytes)
    requires field < 0x2000_0000 && |bytes| == 8
    ensures SplitOne(w, RecordBytes(w, I64(field, bytes)) + rest) == Some((I64(field, bytes), rest))
  {
    KeyIsRead(w, field, 1, bytes, rest);
    assert (bytes + rest)[..8] == bytes && (bytes + rest)[8..] == rest;
  }

  lemma SplitsFour(w: Wire, field: nat, bytes: Bytes, rest: Bytes)
    requires field < 0x2000_0000 && |bytes| == 4
    ensures SplitOne(w, RecordBytes(w, I32(field, bytes)) + rest) == Some((I32(field, bytes), rest))
  {
    KeyIsRead(w, field, 5, bytes, rest);
    assert (bytes + rest)[..4] == bytes && (bytes + rest)[4..] == rest;
  }

  lemma SplitsVarint(w: Wire, field: nat, value: nat, rest: Bytes)
    requires field < 0x2000_0000 && value < 0x1_0000_0000_0000_0000
    ensures SplitOne(w, RecordBytes(w, VARINT(field, value)) + rest) == Some((VARINT(field, value), rest))
  {
    KeyIsRead(w, field, 0, w.put(value), rest);
  }

  lemma SplitsRecord(w: Wire, r: WireRecord, rest: Bytes)
    requires RecordOk(r)
    ensures SplitOne(w, RecordBytes(w, r) + rest) == Some((r, rest)) && RecordBytes(w, r) != []
  {
    match r
    case VARINT(field, value) => SplitsVarint(w, field, value, rest);
    case I64(field, bytes) => SplitsEight(w, field, bytes, rest);
    case LEN(field, bytes) => SplitsLen(w, field, bytes, rest);
    case I32(field, bytes) => SplitsFour(w, field, bytes, rest);
  }

  /** Records written one after the other are read one after the other. */
  lemma {:induction false} SplitsRecords(w: Wire, rs: seq<WireRecord>)
    requires forall r <- rs :: RecordOk(r)
    ensures Split(w, RecordsBytes(w, rs)) == Some(rs)
    decreases |rs|
  {
    if rs != [] {
      SplitsRecord(w, rs[0], RecordsBytes(w, rs[1..]));
      SplitsRecords(w, rs[1..]);
      assert rs == [rs[0]] + rs[1..];
    }
  }

  lemma {:induction false} RecordsJoin(w: Wire, a: seq<WireRecord>, b: seq<WireRecord>)
    ensures RecordsBytes(w, a + b) == RecordsBytes(w, a) + RecordsBytes(w, b)
    decreases |a|
  {
    if a == [] {
      assert a + b == b;
    } else {
      assert (a + b)[1..] == a[1..] + b;
      RecordsJoin(w, a[1..], b);
    }
  }

  // ----- the records of a message -----

  /** Section "Signed Integers": two's complement for int32 and int64, ZigZag for sint32 and sint64. */
  function VarintOf(k: Kind, n: int): nat {
    match k
    case Zigzag(_) => if n >= 0 then 2 * n else -2 * n - 1
    case _ => n % 0x1_0000_0000_0000_0000
  }

  /** The record of one value of a field; a submessage is the records of its own fields, one after the other. */
  function ValueRecord(w: Wire, f: Field, v: Value): WireRecord
    decreases f, 0
  {
    match v
    case Number(n) =>
      if f.kind.Fixed32? then I32(f.tag, w.putFixed(n % 0x1_0000_0000, 4))
      else if f.kind.Fixed64? then I64(f.tag, w.putFixed(n % 0x1_0000_0000_0000_0000, 8))
      else VARINT(f.tag, VarintOf(f.kind, n))
    case Data(b) => LEN(f.tag, b)
    case Message(slots) => LEN(f.tag, if f.kind.Sub? then RecordsBytes(w, RecordsOf(w, f.kind.schema, slots)) else [])
  }

  /** Section "Packed Repeated Fields": the elements without their keys. */
  function Payload(w: Wire, k: Kind, vs: seq<Value>): Bytes {
    if vs == [] then []
    else
      var n := if vs[0].Number? then vs[0].n else 0;
      (if k.Fixed32? then w.putFixed(n % 0x1_0000_0000, 4)
       else if k.Fixed64? then w.putFixed(n % 0x1_0000_0000_0000_0000, 8)
       else w.put(VarintOf(k, n))) + Payload(w, k, vs[1..])
  }

  function EachRecord(w: Wire, f: Field, vs: seq<Value>): seq<WireRecord>
    decreases f, |vs| + 1
  {
    if vs == [] then [] else [ValueRecord(w, f, vs[0])] + EachRecord(w, f, vs[1..])
  }

  /** A field is one record, none, or for an array of what cannot be packed one for each element. */
  function SlotRecords(w: Wire, f: Field, s: Slot): seq<WireRecord>
    decreases f, (if s.Many? then |s.values| else 0) + 2
  {
    match s
    case One(v) => [ValueRecord(w, f, v)]
    case Maybe(o) => if o.Some? then [ValueRecord(w, f, o.value)] else []
    case Many(vs) =>
      if vs == [] then []
      else if f.kind.Signed? || f.kind.Unsigned? || f.kind.Zigzag? || f.kind.Fixed32? || f.kind.Fixed64?
      then [LEN(f.tag, Payload(w, f.kind, vs))]
      else EachRecord(w, f, vs)
  }

  function RecordsOf(w: Wire, s: Schema, slots: seq<Slot>): seq<WireRecord>
    decreases s, 0
  {
    if s.End? || slots == [] then [] else SlotRecords(w, s.first, slots[0]) + RecordsOf(w, s.rest, slots[1..])
  }

  // ----- the encoder writes these records -----

  lemma NumberIsRecord(w: Wire, f: Field, v: Value)
    requires Packable(f.kind) && Typed(w, f.kind, v) && 0 < f.tag < 0x2000_0000
    ensures TaggedBytes(w, f, v) == RecordBytes(w, ValueRecord(w, f, v)) && RecordOk(ValueRecord(w, f, v))
  {
    ItemIsValue(w, f.kind, v);
  }

  lemma ItemIsValue(w: Wire, k: Kind, v: Value)
    requires Packable(k) && Typed(w, k, v)
    ensures ValueBytes(w, k, v) ==
      if k.Fixed32? then w.putFixed(v.n % 0x1_0000_0000, 4)
      else if k.Fixed64? then w.putFixed(v.n % 0x1_0000_0000_0000_0000, 8)
      else w.put(VarintOf(k, v.n))
  {
    if k.Zigzag? {
      ZigZagBijection(v.n, 0);
    }
  }

  lemma {:induction false} PayloadIsPacked(w: Wire, k: Kind, vs: seq<Value>)
    requires Packable(k) && forall v <- vs :: Typed(w, k, v)
    ensures Payload(w, k, vs) == PackedBytes(w, k, vs)
    decreases |vs|
  {
    if vs != [] {
      ItemIsValue(w, k, vs[0]);
      PayloadIsPacked(w, k, vs[1..]);
    }
  }

  lemma {:induction false} ValueIsRecord(w: Wire, f: Field, v: Value)
    requires Typed(w, f.kind, v) && FieldOk(f)
    ensures TaggedBytes(w, f, v) == RecordBytes(w, ValueRecord(w, f, v)) && RecordOk(ValueRecord(w, f, v))
    decreases f, 0
  {
    if Packable(f.kind) {
      NumberIsRecord(w, f, v);
    } else if f.kind.Sub? {
      BytesAreRecords(w, f.kind.schema, v.slots);
    }
  }

  lemma {:induction false} EachIsRecord(w: Wire, f: Field, vs: seq<Value>)
    requires FieldOk(f) && forall v <- vs :: Typed(w, f.kind, v)
    ensures RepeatedBytes(w, f, vs) == RecordsBytes(w, EachRecord(w, f, vs)) && AllOk(EachRecord(w, f, vs))
    decreases f, |vs| + 1
  {
    if vs != [] {
      ValueIsRecord(w, f, vs[0]);
      EachIsRecord(w, f, vs[1..]);
      var first, rest := ValueRecord(w, f, vs[0]), EachRecord(w, f, vs[1..]);
      assert ([first] + rest)[1..] == rest;
    }
  }

  predicate AllOk(rs: seq<WireRecord>) {
    forall r <- rs :: RecordOk(r)
  }

  lemma OneRecord(w: Wire, r: WireRecord)
    ensures RecordsBytes(w, [r]) == RecordBytes(w, r)
  {
    assert [r][1..] == [] && RecordsBytes(w, []) == [];
  }

  lemma {:induction false} SlotIsRecords(w: Wire, f: Field, s: Slot)
    requires FieldOk(f) && TypedSlot(w, f, s)
    ensures SlotBytes(w, f, s) == RecordsBytes(w, SlotRecords(w, f, s)) && AllOk(SlotRecords(w, f, s))
    decreases f, (if s.Many? then |s.values| else 0) + 2
  {
    match s
    case One(v) =>
      ValueIsRecord(w, f, v);
      OneRecord(w, ValueRecord(w, f, v));
    case Maybe(o) =>
      if o.Some? {
        ValueIsRecord(w, f, o.value);
        OneRecord(w, ValueRecord(w, f, o.value));
      }
    case Many(vs) =>
      if vs != [] {
        if Packable(f.kind) {
          PayloadIsPacked(w, f.kind, vs);
          OneRecord(w, LEN(f.tag, Payload(w, f.kind, vs)));
        } else {
          EachIsRecord(w, f, vs);
        }
      }
  }

  /** What the encoder writes for a message, nested ones included, is exactly the records of its fields. */
  lemma {:induction false} BytesAreRecords(w: Wire, s: Schema, slots: seq<Slot>)
    requires FieldsOk(s) && TypedSlots(w, s, slots)
    ensures MessageBytes(w, s, slots) == RecordsBytes(w, RecordsOf(w, s, slots)) && AllOk(RecordsOf(w, s, slots))
    decreases s, 0
  {
    if s.Fields? {
      SlotIsRecords(w, s.first, slots[0]);
      BytesAreRecords(w, s.rest, slots[1..]);
      RecordsJoin(w, SlotRecords(w, s.first, slots[0]), RecordsOf(w, s.rest, slots[1..]));
    }
  }

  /**
   * Any reader of the format finds the message's fields: the encoding of every
   * in-range message of every well-formed schema splits into the records of
   * its fields, with their numbers, wire types and payloads.
   */
  lemma EncodingSplits(w: Wire, s: Schema, slots: seq<Slot>)
    requires SchemaOk(s) && TypedSlots(w, s, slots)
    ensures Split(w, MessageBytes(w, s, slots)) == Some(RecordsOf(w, s, slots))
  {
    BytesAreRecords(w, s, slots);
    SplitsRecords(w, RecordsOf(w, s, slots));
  }

  // ----- fixed-width numbers -----

  function Low(n: nat): byte {
    (n % 256) as byte
  }

  /** Section "Non-varint Numbers": the bytes are little-endian. */
  lemma FixedIsLittleEndian(n: nat)
    ensures NanopbWire().putFixed(n, 4) == [Low(n), Low(n / 256), Low(n / 256 / 256), Low(n / 256 / 256 / 256)]
    ensures var m := n / 256 / 256 / 256 / 256;
      NanopbWire().putFixed(n, 8) == NanopbWire().putFixed(n, 4) + NanopbWire().putFixed(m, 4)
  {
    FourBytes(n);
    FourMore(n);
  }

  lemma FourBytes(n: nat)
    ensures EncodeFixed(n, 4) == [Low(n), Low(n / 256), Low(n / 256 / 256), Low(n / 256 / 256 / 256)]
  {
    assert EncodeFixed(n / 256 / 256 / 256, 1) == [Low(n / 256 / 256 / 256)] + [];
    assert EncodeFixed(n / 256 / 256, 2) == [Low(n / 256 / 256)] + EncodeFixed(n / 256 / 256 / 256, 1);
    assert EncodeFixed(n / 256, 3) == [Low(n / 256)] + EncodeFixed(n / 256 / 256, 2);
  }

  lemma FourMore(n: nat)
    ensures EncodeFixed(n, 8) == EncodeFixed(n, 4) + EncodeFixed(n / 256 / 256 / 256 / 256, 4)
  {
    FourBytes(n);
    assert EncodeFixed(n / 256 / 256 / 256, 5) == [Low(n / 256 / 256 / 256)] + EncodeFixed(n / 256 / 256 / 256 / 256, 4);
    assert EncodeFixed(n / 256 / 256, 6) == [Low(n / 256 / 256)] + EncodeFixed(n / 256 / 256 / 256, 5);
    assert EncodeFixed(n / 256, 7) == [Low(n / 256)] + EncodeFixed(n / 256 / 256, 6);
  }
}
