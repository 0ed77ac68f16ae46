/**
 * Protocol buffer messages as nanopb sees them: a tree of field descriptors, a
 * tree of values, and the bytes the encoder produces for them.
 * Static allocation and explicit presence only.
 */
module PbSchema {
  import opened InternalKeys
  import opened Coding
  import opened PbVarints

  // ----- integers on the wire -----

  datatype WireFunctions = WireFunctions(
    put: nat -> Bytes, get64: Bytes -> Option<(nat, Bytes)>, get32: Bytes -> Option<(nat, Bytes)>,
    putFixed: (nat, nat) -> Bytes, getFixed: Bytes -> nat)

  /** A varint as it stands on the wire: the top bit marks every byte but the last. */
  predicate Terminated(b: Bytes) {
    |b| > 0 && b[|b| - 1] < 128 && forall i :: 0 <= i < |b| - 1 ==> b[i] >= 128
  }

  ghost predicate SoundWire(w: WireFunctions) {
    && (forall n: nat, rest: Bytes | n < TWO_64 :: w.get64(w.put(n) + rest) == Some((n, rest)))
    && (forall n: nat, rest: Bytes | n < TWO_32 :: w.get32(w.put(n) + rest) == Some((n, rest)))
    && (forall b: Bytes :: w.get64(b).Some? ==> |w.get64(b).value.1| < |b| && w.get64(b).value.0 < TWO_64)
    && (forall b: Bytes :: w.get32(b).Some? ==> |w.get32(b).value.1| < |b|)
    && (forall n: nat :: |w.put(n)| > 0)
    && (forall n: nat, width: nat :: |w.putFixed(n, width)| == width)
    && (forall n: nat, width: nat | n < Power256(width) :: w.getFixed(w.putFixed(n, width)) == n)
  }

  /** pb_encode_varint, pb_decode_varint, pb_decode_varint32 and the fixed-width codecs. */
  function Nanopb(): WireFunctions {
    WireFunctions((n: nat) => EncodeVarint(n), (b: Bytes) => Decode64From(b, 0, 0), (b: Bytes) => Decode32(b),
                  (n: nat, width: nat) => EncodeFixed(n, width), (b: Bytes) => DecodeFixed(b))
  }

  lemma Decode64Bounded(b: Bytes)
    ensures Decode64From(b, 0, 0).Some? ==> Decode64From(b, 0, 0).value.0 < TWO_64
  {
    Decode64IsStandard(b);
  }

  lemma {:induction false} VarintTerminated(n: nat)
    ensures Terminated(EncodeVarint(n))
  {
    if n >= 128 {
      VarintTerminated(n / 128);
    }
  }

  lemma {:induction false} FixedBounded(b: Bytes)
    ensures DecodeFixed(b) < Power256(|b|)
  {
    if b != [] {
      FixedBounded(b[1..]);
    }
  }

  lemma NanopbIsSound()
    ensures SoundWire(Nanopb())
  {
    var w := Nanopb();
    forall n: nat, rest: Bytes | n < TWO_64 ensures w.get64(w.put(n) + rest) == Some((n, rest)) {
      Varint64BytesRoundTrip(n, rest);
    }
    forall n: nat, rest: Bytes | n < TWO_32 ensures w.get32(w.put(n) + rest) == Some((n, rest)) {
      Uint32RoundTrip(n, rest);
    }
    forall b: Bytes ensures w.get64(b).Some? ==> w.get64(b).value.0 < TWO_64 {
      Decode64Bounded(b);
    }
    forall n: nat, width: nat | n < Power256(width) ensures w.getFixed(w.putFixed(n, width)) == n {
      FixedRoundTrip(n, width);
    }
  }

  function NanopbWire(): (w: WireFunctions)
    ensures SoundWire(w)
  {
    NanopbIsSound();
    Nanopb()
  }

  /** Any integer codec with those properties; `NanopbWire` is the one in use. */
  type Wire = w: WireFunctions | SoundWire(w) ghost witness NanopbWire()

  ghost predicate TerminatedVarints(w: WireFunctions) {
    forall n: nat :: Terminated(w.put(n))
  }

  ghost predicate BoundedFixed(w: WireFunctions) {
    forall b: Bytes :: w.getFixed(b) < Power256(|b|)
  }

  /** The codec in use has varints in their wire shape, and fixed-width numbers within their width. */
  lemma NanopbShapes()
    ensures TerminatedVarints(NanopbWire()) && BoundedFixed(NanopbWire())
  {
    var w := NanopbWire();
    forall n: nat ensures Terminated(w.put(n)) {
      VarintTerminated(n);
    }
    forall b: Bytes ensures w.getFixed(b) < Power256(|b|) {
      FixedBounded(b);
    }
  }

  // ----- descriptors -----

  /** The PB_LTYPEs; a width is data_size in bytes, a maximum what the struct has room for. */
  datatype Kind =
    | Signed(width: nat)
    | Unsigned(width: nat)
    | Zigzag(width: nat)
    | Fixed32
    | Fixed64
    | Blob(max: nat)
    | Text(max: nat)
    | FixedBlob(size: nat)
    | Sub(schema: Schema)

  /** The PB_HTYPEs; FixedCount is a repeated field without a counter in the struct. */
  datatype Rule = Required | Optional | Repeated(max: nat) | FixedCount(count: nat) | OneOf(group: nat)

  datatype Field = Field(tag: nat, kind: Kind, rule: Rule)

  datatype Schema = End | Fields(first: Field, rest: Schema)

  function Len(s: Schema): nat {
    if s.End? then 0 else 1 + Len(s.rest)
  }

  function FieldAt(s: Schema, i: nat): Field
    requires i < Len(s)
  {
    if i == 0 then s.first else FieldAt(s.rest, i - 1)
  }

  /** Bounds the nesting of messages. */
  function Weight(s: Schema): nat {
    if s.End? then 0 else 1 + KindWeight(s.first.kind) + Weight(s.rest)
  }

  function KindWeight(k: Kind): nat {
    if k.Sub? then 1 + Weight(k.schema) else 0
  }

  lemma {:induction false} FieldLighter(s: Schema, i: nat)
    requires i < Len(s)
    ensures KindWeight(FieldAt(s, i).kind) < Weight(s)
  {
    if i > 0 {
      FieldLighter(s.rest, i - 1);
    }
  }

  // ----- values -----

  datatype Value = Number(n: int) | Data(bytes: Bytes) | Message(slots: seq<Slot>)

  /** What a struct holds for one field. */
  datatype Slot = One(value: Value) | Maybe(option: Option<Value>) | Many(values: seq<Value>)

  /** PB_LTYPE up to PB_LTYPE_LAST_PACKABLE. */
  predicate Packable(k: Kind) {
    k.Signed? || k.Unsigned? || k.Zigzag? || k.Fixed32? || k.Fixed64?
  }

  predicate WidthOk(width: nat) {
    width == 1 || width == 2 || width == 4 || width == 8
  }

  /** 2 to the power of the bits a width has. */
  function Range(width: nat): int {
    if width == 1 then 0x100 else if width == 2 then 0x1_0000 else if width == 4 then TWO_32 else TWO_64
  }

  predicate InSigned(width: nat, n: int) {
    WidthOk(width) && -(Range(width) / 2) <= n < Range(width) / 2
  }

  predicate InUnsigned(width: nat, n: int) {
    WidthOk(width) && 0 <= n < Range(width)
  }

  // ----- the bytes of a message -----

  function WireType(k: Kind): nat {
    match k
    case Signed(_) => 0
    case Unsigned(_) => 0
    case Zigzag(_) => 0
    case Fixed32 => 5
    case Fixed64 => 1
    case _ => 2
  }

  function TagBytes(w: Wire, tag: nat, wiretype: nat): Bytes {
    w.put(8 * tag + wiretype)
  }

  function LengthPrefixed(w: Wire, b: Bytes): Bytes {
    w.put(|b|) + b
  }

  function NumberBytes(w: Wire, k: Kind, n: int): Bytes {
    match k
    case Signed(_) => w.put(Pattern64(n))
    case Zigzag(_) => w.put(ZigZag(n))
    case Fixed32 => w.putFixed(n % TWO_32, 4)
    case Fixed64 => w.putFixed(Pattern64(n), 8)
    case _ => w.put(Pattern64(n))
  }

  function ValueBytes(w: Wire, k: Kind, v: Value): Bytes
    decreases k, 0
  {
    match v
    case Number(n) => NumberBytes(w, k, n)
    case Data(b) => LengthPrefixed(w, b)
    case Message(slots) => if k.Sub? then LengthPrefixed(w, MessageBytes(w, k.schema, slots)) else []
  }

  function PackedBytes(w: Wire, k: Kind, vs: seq<Value>): Bytes
    decreases k, |vs| + 1
  {
    if vs == [] then [] else ValueBytes(w, k, vs[0]) + PackedBytes(w, k, vs[1..])
  }

  function TaggedBytes(w: Wire, f: Field, v: Value): Bytes
    decreases f, 0
  {
    TagBytes(w, f.tag, WireType(f.kind)) + ValueBytes(w, f.kind, v)
  }

  function RepeatedBytes(w: Wire, f: Field, vs: seq<Value>): Bytes
    decreases f, |vs| + 1
  {
    if vs == [] then [] else TaggedBytes(w, f, vs[0]) + RepeatedBytes(w, f, vs[1..])
  }

  /** encode_array: an array is packed whenever its type allows it; an empty one is left out. */
  function ArrayBytes(w: Wire, f: Field, vs: seq<Value>): Bytes
    decreases f, |vs| + 2
  {
    if vs == [] then []
    else if Packable(f.kind) then TagBytes(w, f.tag, 2) + LengthPrefixed(w, PackedBytes(w, f.kind, vs))
    else RepeatedBytes(w, f, vs)
  }

  function SlotBytes(w: Wire, f: Field, s: Slot): Bytes
    decreases f, (if s.Many? then |s.values| else 0) + 3
  {
    match s
    case One(v) => TaggedBytes(w, f, v)
    case Maybe(o) => if o.Some? then TaggedBytes(w, f, o.value) else []
    case Many(vs) => ArrayBytes(w, f, vs)
  }

  /** pb_encode: the fields in the order of the descriptor. */
  function MessageBytes(w: Wire, s: Schema, slots: seq<Slot>): Bytes
    decreases s, 0
  {
    if s.End? || slots == [] then [] else SlotBytes(w, s.first, slots[0]) + MessageBytes(w, s.rest, slots[1..])
  }

  // ----- well-formed schemas and in-range values -----

  predicate Typed(w: Wire, k: Kind, v: Value)
    decreases k, 0
  {
    match k
    case Signed(width) => v.Number? && InSigned(width, v.n)
    case Unsigned(width) => v.Number? && InUnsigned(width, v.n)
    case Zigzag(width) => v.Number? && InSigned(width, v.n)
    case Fixed32 => v.Number? && 0 <= v.n < TWO_32
    case Fixed64 => v.Number? && 0 <= v.n < TWO_64
    case Blob(max) => v.Data? && |v.bytes| <= max && |v.bytes| < TWO_32
    case Text(max) => v.Data? && |v.bytes| + 1 <= max && |v.bytes| < TWO_32 - 1 && 0 !in v.bytes
    case FixedBlob(size) => v.Data? && |v.bytes| == size && |v.bytes| < TWO_32
    case Sub(schema) => v.Message? && TypedSlots(w, schema, v.slots) && Exclusive(schema, v.slots)
                        && |MessageBytes(w, schema, v.slots)| < TWO_32
  }

  predicate TypedSlot(w: Wire, f: Field, s: Slot)
    decreases f, 0
  {
    match f.rule
    case Required => s.One? && Typed(w, f.kind, s.value)
    case Optional => s.Maybe? && (s.option.Some? ==> Typed(w, f.kind, s.option.value))
    case OneOf(_) => s.Maybe? && (s.option.Some? ==> Typed(w, f.kind, s.option.value))
    case Repeated(max) => s.Many? && |s.values| <= max && TypedArray(w, f, s.values)
    case FixedCount(count) => s.Many? && |s.values| == count > 0 && TypedArray(w, f, s.values)
  }

  predicate TypedArray(w: Wire, f: Field, vs: seq<Value>)
    decreases f.kind, 1
  {
    (forall v <- vs :: Typed(w, f.kind, v)) && (Packable(f.kind) ==> |PackedBytes(w, f.kind, vs)| < TWO_32)
  }

  predicate TypedSlots(w: Wire, s: Schema, slots: seq<Slot>)
    decreases s, 0
  {
    if s.End? then slots == []
    else slots != [] && TypedSlot(w, s.first, slots[0]) && TypedSlots(w, s.rest, slots[1..])
  }

  /** At most one field of a oneof is set. */
  predicate Exclusive(s: Schema, slots: seq<Slot>) {
    forall i, j | 0 <= i < j < Len(s) && j < |slots| && FieldAt(s, i).rule.OneOf? && FieldAt(s, i).rule == FieldAt(s, j).rule ::
      slots[i] == Maybe(None) || slots[j] == Maybe(None)
  }

  /** Descriptors as the generator makes them: tags distinct, non-zero and within 29 bits, at every depth. */
  predicate SchemaOk(s: Schema)
    decreases s
  {
    (forall i, j :: 0 <= i < j < Len(s) ==> FieldAt(s, i).tag != FieldAt(s, j).tag) && FieldsOk(s)
  }

  predicate FieldsOk(s: Schema)
    decreases s, 0
  {
    s.Fields? ==> FieldOk(s.first) && FieldsOk(s.rest)
  }

  predicate FieldOk(f: Field)
    decreases f
  {
    0 < f.tag < 0x2000_0000 && (f.kind.Sub? ==> SchemaOk(f.kind.schema))
  }
}
