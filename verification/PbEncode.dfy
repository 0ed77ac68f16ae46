/**
 * nanopb's encoder on output streams. The same code runs over a sizing stream,
 * which only counts, and over a buffer; the two passes agree on every message.
 */
module PbEncode {
  import opened InternalKeys
  import opened Coding
  import opened PbSchema

  // ----- what the encoder refuses -----

  /** The checks of the field encoders: a known width, bytes within their maximum, arrays within theirs. */
  predicate AcceptsValue(k: Kind, v: Value)
    decreases k, 0
  {
    match k
    case Signed(width) => v.Number? && WidthOk(width)
    case Unsigned(width) => v.Number? && WidthOk(width)
    case Zigzag(width) => v.Number? && WidthOk(width)
    case Fixed32 => v.Number?
    case Fixed64 => v.Number?
    case Blob(max) => v.Data? && |v.bytes| <= max
    case Text(_) => v.Data?
    case FixedBlob(_) => v.Data?
    case Sub(schema) => v.Message? && AcceptsMessage(schema, v.slots)
  }

  predicate AcceptsAll(k: Kind, vs: seq<Value>)
    decreases k, 1
  {
    forall v <- vs :: AcceptsValue(k, v)
  }

  predicate AcceptsSlot(f: Field, s: Slot)
    decreases f, 0
  {
    match s
    case One(v) => AcceptsValue(f.kind, v)
    case Maybe(o) => o.Some? ==> AcceptsValue(f.kind, o.value)
    case Many(vs) => (f.rule.Repeated? ==> |vs| <= f.rule.max) && AcceptsAll(f.kind, vs)
  }

  predicate AcceptsMessage(s: Schema, slots: seq<Slot>)
    decreases s, 0
  {
    s.End? || slots == [] || (AcceptsSlot(s.first, slots[0]) && AcceptsMessage(s.rest, slots[1..]))
  }

  // ----- streams -----

  /** pb_ostream_t; a sizing stream has no callback, a buffer stream collects what is written. */
  class OStream {
    const sizing: bool
    const max: nat
    var written: nat
    var out: Bytes

    predicate Valid()
      reads this
    {
      !sizing ==> |out| == written <= max
    }

    constructor (sizing: bool, max: nat)
      ensures Valid() && this.sizing == sizing && this.max == max && written == 0 && out == []
    {
      this.sizing, this.max := sizing, max;
      written, out := 0, [];
    }
  }

  /** Where a stream stands. */
  datatype Place = Place(sizing: bool, max: nat, written: nat, out: Bytes)

  ghost function At(s: OStream): Place
    reads s
  {
    Place(s.sizing, s.max, s.written, s.out)
  }

  /** Encoding e: it succeeds exactly if the encoder accepts the value and the stream has room, and then e is written. */
  ghost predicate Puts(a: Place, b: Place, e: Bytes, accepted: bool, ok: bool) {
    && b.sizing == a.sizing && b.max == a.max
    && ok == (accepted && (a.sizing || a.written + |e| <= a.max))
    && (ok ==> b.written == a.written + |e| && (if a.sizing then b.out == a.out else b.out == a.out + e))
  }

  lemma Then(a: Place, b: Place, c: Place, e: Bytes, f: Bytes, x: bool, y: bool, ok: bool)
    requires Puts(a, b, e, x, true) && Puts(b, c, f, y, ok)
    ensures Puts(a, c, e + f, x && y, ok)
  {
    assert a.out + e + f == a.out + (e + f);
  }

  lemma Fails(a: Place, b: Place, e: Bytes, f: Bytes, x: bool, y: bool)
    requires Puts(a, b, e, x, false)
    ensures Puts(a, b, e + f, x && y, false)
  {
  }

  /** pb_write. */
  method Write(stream: OStream, b: Bytes) returns (ok: bool)
    requires stream.Valid()
    modifies stream
    ensures stream.Valid() && Puts(old(At(stream)), At(stream), b, true, ok)
  {
    if !stream.sizing {
      if stream.written + |b| > stream.max {
        return false;
      }
      stream.out := stream.out + b;
    }
    stream.written := stream.written + |b|;
    return true;
  }

  /** pb_write without a buffer, on a sizing stream: only the count moves. */
  method Skip(stream: OStream, n: nat, ghost b: Bytes) returns (ok: bool)
    requires stream.Valid() && stream.sizing && |b| == n
    modifies stream
    ensures stream.Valid() && Puts(old(At(stream)), At(stream), b, true, ok)
  {
    stream.written := stream.written + n;
    return true;
  }

  /** pb_encode_string. */
  method PutString(w: Wire, stream: OStream, b: Bytes) returns (ok: bool)
    requires stream.Valid()
    modifies stream
    ensures stream.Valid() && Puts(old(At(stream)), At(stream), LengthPrefixed(w, b), true, ok)
  {
    ghost var a := At(stream);
    ok := Write(stream, w.put(|b|));
    if !ok {
      Fails(a, At(stream), w.put(|b|), b, true, true);
      return;
    }
    ghost var m := At(stream);
    ok := Write(stream, b);
    Then(a, m, At(stream), w.put(|b|), b, true, true, ok);
  }

  /**
   * What a struct can hold for a field: a number of the field's width, a string
   * without a zero that fills its buffer at most, bytes with a size of their own,
   * a struct for a submessage.
   */
  predicate Shaped(k: Kind, v: Value)
    decreases k, 0
  {
    match k
    case Signed(width) => v.Number? && (WidthOk(width) ==> InSigned(width, v.n))
    case Unsigned(width) => v.Number? && (WidthOk(width) ==> InUnsigned(width, v.n))
    case Zigzag(width) => v.Number? && (WidthOk(width) ==> InSigned(width, v.n))
    case Fixed32 => v.Number? && 0 <= v.n < 0x1_0000_0000
    case Fixed64 => v.Number? && 0 <= v.n < 0x1_0000_0000_0000_0000
    case Blob(_) => v.Data?
    case Text(max) => v.Data? && |v.bytes| <= max && 0 !in v.bytes
    case FixedBlob(size) => v.Data? && |v.bytes| == size
    case Sub(schema) => v.Message? && |v.slots| == Len(schema) && ShapedMessage(schema, v.slots) && Exclusive(schema, v.slots)
  }

  /** Every rule has its slot; an array without a counter is as long as its storage. */
  predicate ShapedSlot(f: Field, s: Slot)
    decreases f, 0
  {
    match f.rule
    case Required => s.One? && Shaped(f.kind, s.value)
    case Optional => s.Maybe? && (s.option.Some? ==> Shaped(f.kind, s.option.value))
    case OneOf(_) => s.Maybe? && (s.option.Some? ==> Shaped(f.kind, s.option.value))
    case Repeated(_) => s.Many? && forall v <- s.values :: Shaped(f.kind, v)
    case FixedCount(count) => s.Many? && |s.values| == count && forall v <- s.values :: Shaped(f.kind, v)
  }

  predicate ShapedMessage(s: Schema, slots: seq<Slot>)
    decreases s, 0
  {
    s.End? || slots == [] || (ShapedSlot(s.first, slots[0]) && ShapedMessage(s.rest, slots[1..]))
  }

  /** The number encoders: an unknown width is refused. */
  method PutNumber(w: Wire, k: Kind, v: Value, stream: OStream) returns (ok: bool)
    requires stream.Valid() && Packable(k) && v.Number?
    modifies stream
    ensures stream.Valid() && Puts(old(At(stream)), At(stream), ValueBytes(w, k, v), AcceptsValue(k, v), ok)
  {
    if (k.Signed? || k.Unsigned? || k.Zigzag?) && !WidthOk(k.width) {
      return false;
    }
    ok := Write(stream, NumberBytes(w, k, v.n));
  }

  // ----- packed arrays -----

  lemma {:induction false} PackedSnoc(w: Wire, k: Kind, vs: seq<Value>, v: Value)
    ensures PackedBytes(w, k, vs + [v]) == PackedBytes(w, k, vs) + ValueBytes(w, k, v)
    decreases |vs|
  {
    var all := vs + [v];
    if vs == [] {
      assert all[1..] == [];
      assert PackedBytes(w, k, all) == ValueBytes(w, k, v) + PackedBytes(w, k, []);
    } else {
      assert all[1..] == vs[1..] + [v];
      PackedSnoc(w, k, vs[1..], v);
    }
  }

  /** The loop over a packed array, on either kind of stream. */
  method PutItems(w: Wire, k: Kind, vs: seq<Value>, stream: OStream) returns (ok: bool)
    requires stream.Valid() && Packable(k) && forall v <- vs :: v.Number?
    modifies stream
    ensures stream.Valid() && Puts(old(At(stream)), At(stream), PackedBytes(w, k, vs), AcceptsAll(k, vs), ok)
  {
    ghost var a := At(stream);
    for i := 0 to |vs|
      invariant stream.Valid() && Puts(a, At(stream), PackedBytes(w, k, vs[..i]), AcceptsAll(k, vs[..i]), true)
    {
      ghost var m := At(stream);
      PackedSnoc(w, k, vs[..i], vs[i]);
      assert vs[..i + 1] == vs[..i] + [vs[i]];
      ok := PutNumber(w, k, vs[i], stream);
      Then(a, m, At(stream), PackedBytes(w, k, vs[..i]), ValueBytes(w, k, vs[i]), AcceptsAll(k, vs[..i]), AcceptsValue(k, vs[i]), ok);
      if !ok {
        PackedPrefix(w, k, vs, i + 1);
        AcceptsSplit(k, vs, i + 1);
        Fails(a, At(stream), PackedBytes(w, k, vs[..i + 1]), PackedBytes(w, k, vs[i + 1..]), AcceptsAll(k, vs[..i + 1]), AcceptsAll(k, vs[i + 1..]));
        return;
      }
    }
    assert vs[..|vs|] == vs;
    ok := true;
  }

  lemma AcceptsSplit(k: Kind, vs: seq<Value>, i: nat)
    requires i <= |vs|
    ensures AcceptsAll(k, vs) == (AcceptsAll(k, vs[..i]) && AcceptsAll(k, vs[i..]))
  {
    assert vs == vs[..i] + vs[i..];
  }

  lemma PackedLast(w: Wire, k: Kind, vs: seq<Value>, i: nat)
    requires i < |vs|
    ensures PackedBytes(w, k, vs[..i + 1]) == PackedBytes(w, k, vs[..i]) + ValueBytes(w, k, vs[i])
    ensures PackedBytes(w, k, vs[i..]) == ValueBytes(w, k, vs[i]) + PackedBytes(w, k, vs[i + 1..])
  {
    assert vs[..i + 1] == vs[..i] + [vs[i]];
    PackedSnoc(w, k, vs[..i], vs[i]);
    assert vs[i..][1..] == vs[i + 1..];
  }

  lemma {:induction false} PackedPrefix(w: Wire, k: Kind, vs: seq<Value>, i: nat)
    requires i <= |vs|
    ensures PackedBytes(w, k, vs) == PackedBytes(w, k, vs[..i]) + PackedBytes(w, k, vs[i..])
    decreases i
  {
    if i == 0 {
      assert vs[0..] == vs && vs[..0] == [];
    } else {
      PackedPrefix(w, k, vs, i - 1);
      PackedLast(w, k, vs, i - 1);
      JoinAssoc(PackedBytes(w, k, vs[..i - 1]), ValueBytes(w, k, vs[i - 1]), PackedBytes(w, k, vs[i..]));
    }
  }

  lemma {:induction false} FixedSizes(w: Wire, k: Kind, vs: seq<Value>)
    requires (k.Fixed32? || k.Fixed64?) && forall v <- vs :: v.Number?
    ensures |PackedBytes(w, k, vs)| == (if k.Fixed32? then 4 else 8) * |vs|
    decreases |vs|
  {
    if vs != [] {
      FixedSizes(w, k, vs[1..]);
    }
  }

  /** The size of a packed array, known or by a sizing pass. */
  method PackedSize(w: Wire, k: Kind, vs: seq<Value>) returns (ok: bool, size: nat)
    requires Packable(k) && forall v <- vs :: v.Number?
    ensures ok == AcceptsAll(k, vs) && (ok ==> size == |PackedBytes(w, k, vs)|)
  {
    if k.Fixed32? {
      FixedSizes(w, k, vs);
      return true, 4 * |vs|;
    } else if k.Fixed64? {
      FixedSizes(w, k, vs);
      return true, 8 * |vs|;
    }
    var sizestream := new OStream(true, 0);
    ok := PutItems(w, k, vs, sizestream);
    size := sizestream.written;
  }

  /** Length and contents of a packed array: on a sizing stream the second pass is only counted. */
  method PutPackedBody(w: Wire, k: Kind, vs: seq<Value>, stream: OStream) returns (ok: bool)
    requires stream.Valid() && Packable(k) && forall v <- vs :: v.Number?
    modifies stream
    ensures stream.Valid() && Puts(old(At(stream)), At(stream), LengthPrefixed(w, PackedBytes(w, k, vs)), AcceptsAll(k, vs), ok)
  {
    ghost var a, body := At(stream), PackedBytes(w, k, vs);
    var size;
    ok, size := PackedSize(w, k, vs);
    if !ok {
      return;
    }
    ok := Write(stream, w.put(size));
    if !ok {
      Fails(a, At(stream), w.put(size), body, true, AcceptsAll(k, vs));
      return;
    }
    ghost var m := At(stream);
    if stream.sizing {
      ok := Skip(stream, size, body);
    } else {
      ok := PutItems(w, k, vs, stream);
    }
    Then(a, m, At(stream), w.put(size), body, true, AcceptsAll(k, vs), ok);
  }

  method PutPacked(w: Wire, f: Field, vs: seq<Value>, stream: OStream) returns (ok: bool)
    requires stream.Valid() && Packable(f.kind) && forall v <- vs :: v.Number?
    modifies stream
    ensures stream.Valid()
    ensures Puts(old(At(stream)), At(stream), TagBytes(w, f.tag, 2) + LengthPrefixed(w, PackedBytes(w, f.kind, vs)), AcceptsAll(f.kind, vs), ok)
  {
    ghost var a, body := At(stream), LengthPrefixed(w, PackedBytes(w, f.kind, vs));
    ok := Write(stream, TagBytes(w, f.tag, 2));
    if !ok {
      Fails(a, At(stream), TagBytes(w, f.tag, 2), body, true, AcceptsAll(f.kind, vs));
      return;
    }
    ghost var m := At(stream);
    ok := PutPackedBody(w, f.kind, vs, stream);
    Then(a, m, At(stream), TagBytes(w, f.tag, 2), body, true, AcceptsAll(f.kind, vs), ok);
  }

  // ----- values, fields, messages -----

  /** pb_encode_submessage: size it, write the length, then write it into a substream of exactly that size. */
  method PutSubmessage(w: Wire, s: Schema, slots: seq<Slot>, stream: OStream) returns (ok: bool)
    requires stream.Valid() && |slots| == Len(s) && ShapedMessage(s, slots)
    modifies stream
    ensures stream.Valid() && Puts(old(At(stream)), At(stream), LengthPrefixed(w, MessageBytes(w, s, slots)), AcceptsMessage(s, slots), ok)
    decreases Weight(s), 5, 0
  {
    ghost var a, body := At(stream), MessageBytes(w, s, slots);
    var sizer := new OStream(true, 0);
    ok := PutMessage(w, s, slots, sizer);
    if !ok {
      return;
    }
    var size := sizer.written;
    assert size == |body|;
    ok := Write(stream, w.put(size));
    if !ok {
      Fails(a, At(stream), w.put(size), body, true, true);
      return;
    }
    ghost var m := At(stream);
    ok := PutBody(w, s, slots, size, stream);
    Then(a, m, At(stream), w.put(size), body, true, true, ok);
  }

  /** The second pass. The size cannot have changed: the substream takes exactly the bytes that were counted. */
  method PutBody(w: Wire, s: Schema, slots: seq<Slot>, size: nat, stream: OStream) returns (ok: bool)
    requires stream.Valid() && |slots| == Len(s) && ShapedMessage(s, slots) && AcceptsMessage(s, slots)
    requires size == |MessageBytes(w, s, slots)|
    modifies stream
    ensures stream.Valid() && Puts(old(At(stream)), At(stream), MessageBytes(w, s, slots), true, ok)
    decreases Weight(s), 4, 0
  {
    if stream.sizing {
      ok := Skip(stream, size, MessageBytes(w, s, slots));
      return;
    }
    if stream.written + size > stream.max {
      return false;
    }
    var substream := new OStream(false, size);
    var status := PutMessage(w, s, slots, substream);
    assert status && substream.written == size;
    stream.written := stream.written + substream.written;
    stream.out := stream.out + substream.out;
    ok := status && substream.written == size;
  }

  /** The encoder for one value of a field. */
  method PutValue(w: Wire, k: Kind, v: Value, stream: OStream) returns (ok: bool)
    requires stream.Valid() && Shaped(k, v)
    modifies stream
    ensures stream.Valid() && Puts(old(At(stream)), At(stream), ValueBytes(w, k, v), AcceptsValue(k, v), ok)
    decreases KindWeight(k), 0, 0
  {
    if Packable(k) {
      ok := PutNumber(w, k, v, stream);
    } else if k.Sub? {
      ok := PutSubmessage(w, k.schema, v.slots, stream);
    } else if k.Blob? && |v.bytes| > k.max {
      ok := false;
    } else {
      ok := PutString(w, stream, v.bytes);
    }
  }

  method PutTagged(w: Wire, f: Field, v: Value, stream: OStream) returns (ok: bool)
    requires stream.Valid() && Shaped(f.kind, v)
    modifies stream
    ensures stream.Valid() && Puts(old(At(stream)), At(stream), TaggedBytes(w, f, v), AcceptsValue(f.kind, v), ok)
    decreases KindWeight(f.kind), 1, 0
  {
    ghost var a, tag := At(stream), TagBytes(w, f.tag, WireType(f.kind));
    ok := Write(stream, TagBytes(w, f.tag, WireType(f.kind)));
    if !ok {
      Fails(a, At(stream), tag, ValueBytes(w, f.kind, v), true, AcceptsValue(f.kind, v));
      return;
    }
    ghost var m := At(stream);
    ok := PutValue(w, f.kind, v, stream);
    Then(a, m, At(stream), tag, ValueBytes(w, f.kind, v), true, AcceptsValue(f.kind, v), ok);
  }

  lemma {:induction false} RepeatedSnoc(w: Wire, f: Field, vs: seq<Value>, v: Value)
    ensures RepeatedBytes(w, f, vs + [v]) == RepeatedBytes(w, f, vs) + TaggedBytes(w, f, v)
    decreases |vs|
  {
    var all := vs + [v];
    if vs == [] {
      assert all[1..] == [];
      assert RepeatedBytes(w, f, all) == TaggedBytes(w, f, v) + RepeatedBytes(w, f, []);
    } else {
      assert all[1..] == vs[1..] + [v];
      RepeatedSnoc(w, f, vs[1..], v);
    }
  }

  lemma RepeatedLast(w: Wire, f: Field, vs: seq<Value>, i: nat)
    requires i < |vs|
    ensures RepeatedBytes(w, f, vs[..i + 1]) == RepeatedBytes(w, f, vs[..i]) + TaggedBytes(w, f, vs[i])
    ensures RepeatedBytes(w, f, vs[i..]) == TaggedBytes(w, f, vs[i]) + RepeatedBytes(w, f, vs[i + 1..])
  {
    assert vs[..i + 1] == vs[..i] + [vs[i]];
    RepeatedSnoc(w, f, vs[..i], vs[i]);
    assert vs[i..][1..] == vs[i + 1..];
  }

  lemma {:induction false} RepeatedPrefix(w: Wire, f: Field, vs: seq<Value>, i: nat)
    requires i <= |vs|
    ensures RepeatedBytes(w, f, vs) == RepeatedBytes(w, f, vs[..i]) + RepeatedBytes(w, f, vs[i..])
    decreases i
  {
    if i == 0 {
      assert vs[0..] == vs && vs[..0] == [];
    } else {
      RepeatedPrefix(w, f, vs, i - 1);
      RepeatedLast(w, f, vs, i - 1);
      JoinAssoc(RepeatedBytes(w, f, vs[..i - 1]), TaggedBytes(w, f, vs[i - 1]), RepeatedBytes(w, f, vs[i..]));
    }
  }

  /** The loop over an array that is not packed. */
  method PutRepeated(w: Wire, f: Field, vs: seq<Value>, stream: OStream) returns (ok: bool)
    requires stream.Valid() && forall v <- vs :: Shaped(f.kind, v)
    modifies stream
    ensures stream.Valid() && Puts(old(At(stream)), At(stream), RepeatedBytes(w, f, vs), AcceptsAll(f.kind, vs), ok)
    decreases KindWeight(f.kind), 2, 0
  {
    ghost var a := At(stream);
    for i := 0 to |vs|
      invariant stream.Valid() && Puts(a, At(stream), RepeatedBytes(w, f, vs[..i]), AcceptsAll(f.kind, vs[..i]), true)
    {
      ghost var m := At(stream);
      RepeatedLast(w, f, vs, i);
      assert vs[..i + 1] == vs[..i] + [vs[i]];
      ok := PutTagged(w, f, vs[i], stream);
      Then(a, m, At(stream), RepeatedBytes(w, f, vs[..i]), TaggedBytes(w, f, vs[i]), AcceptsAll(f.kind, vs[..i]), AcceptsValue(f.kind, vs[i]), ok);
      if !ok {
        RepeatedPrefix(w, f, vs, i + 1);
        AcceptsSplit(f.kind, vs, i + 1);
        Fails(a, At(stream), RepeatedBytes(w, f, vs[..i + 1]), RepeatedBytes(w, f, vs[i + 1..]), AcceptsAll(f.kind, vs[..i + 1]), AcceptsAll(f.kind, vs[i + 1..]));
        return;
      }
    }
    assert vs[..|vs|] == vs;
    ok := true;
  }

  /** encode_array: nothing for an empty array, an error for one over its maximum. */
  method PutArray(w: Wire, f: Field, vs: seq<Value>, stream: OStream) returns (ok: bool)
    requires stream.Valid() && forall v <- vs :: Shaped(f.kind, v)
    modifies stream
    ensures stream.Valid() && Puts(old(At(stream)), At(stream), SlotBytes(w, f, Many(vs)), AcceptsSlot(f, Many(vs)), ok)
    decreases KindWeight(f.kind), 3, 0
  {
    if vs == [] {
      ok := true;
    } else if f.rule.Repeated? && |vs| > f.rule.max {
      ok := false;
    } else if Packable(f.kind) {
      ok := PutPacked(w, f, vs, stream);
    } else {
      ok := PutRepeated(w, f, vs, stream);
    }
  }

  /** encode_basic_field. */
  method PutSlot(w: Wire, f: Field, s: Slot, stream: OStream) returns (ok: bool)
    requires stream.Valid() && ShapedSlot(f, s)
    modifies stream
    ensures stream.Valid() && Puts(old(At(stream)), At(stream), SlotBytes(w, f, s), AcceptsSlot(f, s), ok)
    decreases KindWeight(f.kind), 4, 0
  {
    match s
    case One(v) => ok := PutTagged(w, f, v, stream);
    case Many(vs) => ok := PutArray(w, f, vs, stream);
    case Maybe(o) =>
      ok := true;
      if o.Some? {
        ok := PutTagged(w, f, o.value, stream);
      }
  }

  /** The bytes of the first i fields. */
  function FirstBytes(w: Wire, s: Schema, slots: seq<Slot>, i: nat): Bytes
    requires |slots| == Len(s) && i <= Len(s)
  {
    if i == 0 then [] else FirstBytes(w, s, slots, i - 1) + SlotBytes(w, FieldAt(s, i - 1), slots[i - 1])
  }

  predicate AcceptsFirst(s: Schema, slots: seq<Slot>, i: nat)
    requires |slots| == Len(s) && i <= Len(s)
  {
    forall j :: 0 <= j < i ==> AcceptsSlot(FieldAt(s, j), slots[j])
  }

  lemma {:induction false} FirstBytesCons(w: Wire, s: Schema, slots: seq<Slot>, i: nat)
    requires |slots| == Len(s) && 0 < i <= Len(s)
    ensures FirstBytes(w, s, slots, i) == SlotBytes(w, s.first, slots[0]) + FirstBytes(w, s.rest, slots[1..], i - 1)
    decreases i
  {
    if i == 1 {
      assert FirstBytes(w, s, slots, 0) == [];
    } else {
      FirstBytesCons(w, s, slots, i - 1);
      JoinAssoc(SlotBytes(w, s.first, slots[0]), FirstBytes(w, s.rest, slots[1..], i - 2), SlotBytes(w, FieldAt(s, i - 1), slots[i - 1]));
    }
  }

  lemma {:induction false} FirstBytesAll(w: Wire, s: Schema, slots: seq<Slot>)
    requires |slots| == Len(s)
    ensures FirstBytes(w, s, slots, Len(s)) == MessageBytes(w, s, slots)
    decreases s
  {
    if s.Fields? {
      FirstBytesCons(w, s, slots, Len(s));
      FirstBytesAll(w, s.rest, slots[1..]);
    }
  }

  lemma {:induction false} AcceptsEach(s: Schema, slots: seq<Slot>)
    requires |slots| == Len(s)
    ensures AcceptsMessage(s, slots) == AcceptsFirst(s, slots, Len(s))
    decreases s
  {
    if s.Fields? {
      AcceptsEach(s.rest, slots[1..]);
      if AcceptsFirst(s, slots, Len(s)) {
        assert AcceptsSlot(FieldAt(s, 0), slots[0]);
        forall j | 0 <= j < Len(s.rest) ensures AcceptsSlot(FieldAt(s.rest, j), slots[1..][j]) {
          assert AcceptsSlot(FieldAt(s, j + 1), slots[j + 1]);
        }
      }
      if AcceptsMessage(s, slots) {
        forall j | 0 <= j < Len(s) ensures AcceptsSlot(FieldAt(s, j), slots[j]) {
          if j > 0 {
            assert AcceptsSlot(FieldAt(s.rest, j - 1), slots[1..][j - 1]);
          }
        }
      }
    }
  }

  lemma {:induction false} ShapedAt(s: Schema, slots: seq<Slot>, i: nat)
    requires |slots| == Len(s) && i < Len(s) && ShapedMessage(s, slots)
    ensures ShapedSlot(FieldAt(s, i), slots[i])
  {
    if i > 0 {
      ShapedAt(s.rest, slots[1..], i - 1);
    }
  }

  lemma {:induction false} FirstBytesGrow(w: Wire, s: Schema, slots: seq<Slot>, i: nat, j: nat)
    requires |slots| == Len(s) && i <= j <= Len(s)
    ensures FirstBytes(w, s, slots, i) <= FirstBytes(w, s, slots, j)
    decreases j - i
  {
    if i < j {
      FirstBytesGrow(w, s, slots, i, j - 1);
    }
  }

  /** If the first fields already fail, the message fails. */
  lemma FailsEarly(a: Place, b: Place, w: Wire, s: Schema, slots: seq<Slot>, i: nat)
    requires |slots| == Len(s) && i <= Len(s) && Puts(a, b, FirstBytes(w, s, slots, i), AcceptsFirst(s, slots, i), false)
    ensures Puts(a, b, FirstBytes(w, s, slots, Len(s)), AcceptsFirst(s, slots, Len(s)), false)
  {
    FirstBytesGrow(w, s, slots, i, Len(s));
  }

  /** pb_encode: the fields in order, on either kind of stream. */
  method PutMessage(w: Wire, s: Schema, slots: seq<Slot>, stream: OStream) returns (ok: bool)
    requires stream.Valid() && |slots| == Len(s) && ShapedMessage(s, slots)
    modifies stream
    ensures stream.Valid() && Puts(old(At(stream)), At(stream), MessageBytes(w, s, slots), AcceptsMessage(s, slots), ok)
    decreases Weight(s), 3, 0
  {
    FirstBytesAll(w, s, slots);
    AcceptsEach(s, slots);
    ghost var a := At(stream);
    for i := 0 to Len(s)
      invariant stream.Valid() && Puts(a, At(stream), FirstBytes(w, s, slots, i), AcceptsFirst(s, slots, i), true)
    {
      ghost var m := At(stream);
      FieldLighter(s, i);
      ShapedAt(s, slots, i);
      var f := FieldAt(s, i);
      ok := PutSlot(w, f, slots[i], stream);
      Then(a, m, At(stream), FirstBytes(w, s, slots, i), SlotBytes(w, f, slots[i]), AcceptsFirst(s, slots, i), AcceptsSlot(f, slots[i]), ok);
      assert AcceptsFirst(s, slots, i + 1) == (AcceptsFirst(s, slots, i) && AcceptsSlot(f, slots[i]));
      if !ok {
        FailsEarly(a, At(stream), w, s, slots, i + 1);
        return;
      }
    }
    ok := true;
  }

  // ----- the two passes -----

  /** pb_get_encoded_size. */
  method GetEncodedSize(w: Wire, s: Schema, slots: seq<Slot>) returns (ok: bool, size: nat)
    requires |slots| == Len(s) && ShapedMessage(s, slots)
    ensures ok == AcceptsMessage(s, slots) && (ok ==> size == |MessageBytes(w, s, slots)|)
  {
    var stream := new OStream(true, 0);
    ok := PutMessage(w, s, slots, stream);
    size := stream.written;
  }

  /** Encoding into a buffer of n bytes succeeds exactly if the size pass does and gives at most n, and writes that many. */
  method Encode(w: Wire, s: Schema, slots: seq<Slot>, n: nat) returns (ok: bool, buffer: Bytes)
    requires |slots| == Len(s) && ShapedMessage(s, slots)
    ensures ok == (AcceptsMessage(s, slots) && |MessageBytes(w, s, slots)| <= n)
    ensures ok ==> buffer == MessageBytes(w, s, slots)
  {
    var stream := new OStream(false, n);
    ok := PutMessage(w, s, slots, stream);
    buffer := stream.out;
  }

  // ----- what decodes is encoded -----

  lemma {:induction false} TypedIsAccepted(w: Wire, k: Kind, v: Value)
    requires Typed(w, k, v)
    ensures Shaped(k, v) && AcceptsValue(k, v)
    decreases k, 0
  {
    if k.Sub? {
      TypedMessageIsAccepted(w, k.schema, v.slots);
    }
  }

  lemma {:induction false} TypedSlotIsAccepted(w: Wire, f: Field, s: Slot)
    requires TypedSlot(w, f, s)
    ensures ShapedSlot(f, s) && AcceptsSlot(f, s)
    decreases f, 0
  {
    match s
    case One(v) => TypedIsAccepted(w, f.kind, v);
    case Maybe(o) =>
      if o.Some? {
        TypedIsAccepted(w, f.kind, o.value);
      }
    case Many(vs) =>
      forall v | v in vs ensures Shaped(f.kind, v) && AcceptsValue(f.kind, v) {
        TypedIsAccepted(w, f.kind, v);
      }
  }

  /** The encoder accepts every in-range message, so that only a full buffer stops it. */
  lemma {:induction false} TypedMessageIsAccepted(w: Wire, s: Schema, slots: seq<Slot>)
    requires TypedSlots(w, s, slots)
    ensures |slots| == Len(s) && ShapedMessage(s, slots) && AcceptsMessage(s, slots)
    decreases s, 0
  {
    if s.Fields? {
      TypedSlotIsAccepted(w, s.first, slots[0]);
      TypedMessageIsAccepted(w, s.rest, slots[1..]);
    }
  }

  // ----- what is accepted is in range -----

  /** Every string leaves room for its terminator, and every counterless array has storage. */
  predicate Ended(k: Kind, v: Value)
    decreases k, 0
  {
    match k
    case Text(max) => v.Data? ==> |v.bytes| < max
    case Sub(schema) => v.Message? ==> EndedMessage(schema, v.slots)
    case _ => true
  }

  predicate EndedSlot(f: Field, s: Slot)
    decreases f, 0
  {
    && (f.rule.FixedCount? ==> f.rule.count > 0)
    && match s
       case One(v) => Ended(f.kind, v)
       case Maybe(o) => o.Some? ==> Ended(f.kind, o.value)
       case Many(vs) => forall v <- vs :: Ended(f.kind, v)
  }

  predicate EndedMessage(s: Schema, slots: seq<Slot>)
    decreases s, 0
  {
    s.End? || slots == [] || (EndedSlot(s.first, slots[0]) && EndedMessage(s.rest, slots[1..]))
  }

  lemma {:induction false} AcceptedValueIsTyped(w: Wire, k: Kind, v: Value)
    requires Shaped(k, v) && AcceptsValue(k, v) && Ended(k, v) && |ValueBytes(w, k, v)| < 0x1_0000_0000 - 1
    ensures Typed(w, k, v)
    decreases k, 0
  {
    if k.Sub? {
      AcceptedIsTyped(w, k.schema, v.slots);
    }
  }

  lemma {:induction false} ItemsAreTyped(w: Wire, f: Field, vs: seq<Value>)
    requires (forall v <- vs :: Shaped(f.kind, v) && Ended(f.kind, v)) && AcceptsAll(f.kind, vs)
    requires |if Packable(f.kind) then PackedBytes(w, f.kind, vs) else RepeatedBytes(w, f, vs)| < 0x1_0000_0000 - 1
    ensures forall v <- vs :: Typed(w, f.kind, v)
    decreases f, |vs| + 1
  {
    if vs != [] {
      AcceptedValueIsTyped(w, f.kind, vs[0]);
      ItemsAreTyped(w, f, vs[1..]);
      assert vs == [vs[0]] + vs[1..];
    }
  }

  lemma {:induction false} AcceptedSlotIsTyped(w: Wire, f: Field, s: Slot)
    requires ShapedSlot(f, s) && AcceptsSlot(f, s) && EndedSlot(f, s) && |SlotBytes(w, f, s)| < 0x1_0000_0000 - 1
    ensures TypedSlot(w, f, s)
    decreases f, (if s.Many? then |s.values| else 0) + 2
  {
    match s
    case One(v) => AcceptedValueIsTyped(w, f.kind, v);
    case Maybe(o) =>
      if o.Some? {
        AcceptedValueIsTyped(w, f.kind, o.value);
      }
    case Many(vs) =>
      if vs != [] {
        ItemsAreTyped(w, f, vs);
      }
  }

  /**
   * The encoder accepts nothing that is out of range: a struct it accepts is an
   * in-range message, if its strings are terminated and it is shorter than 4 GB.
   */
  lemma {:induction false} AcceptedIsTyped(w: Wire, s: Schema, slots: seq<Slot>)
    requires |slots| == Len(s) && ShapedMessage(s, slots) && AcceptsMessage(s, slots) && EndedMessage(s, slots)
    requires |MessageBytes(w, s, slots)| < 0x1_0000_0000 - 1
    ensures TypedSlots(w, s, slots)
    decreases s, 0
  {
    if s.Fields? {
      AcceptedSlotIsTyped(w, s.first, slots[0]);
      AcceptedIsTyped(w, s.rest, slots[1..]);
    }
  }
}
