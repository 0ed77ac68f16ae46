/**
 * What a decoded message satisfies whatever bytes it came from: every value
 * fits its field, no array or buffer is overrun, and at most one member of a
 * oneof is set.
 */
module PbBounds {
  import opened InternalKeys
  import opened Coding
  import opened PbVarints
  import opened PbSchema
  import opened PbFields
  import opened PbDecode
  import PbEncode

  /** What one, two, four and eight bytes hold in two's complement. */
  predicate SignedFits(width: nat, n: int) {
    || (width == 1 && -128 <= n <= 127)
    || (width == 2 && -32_768 <= n <= 32_767)
    || (width == 4 && -2_147_483_648 <= n <= 2_147_483_647)
    || (width == 8 && -9_223_372_036_854_775_808 <= n <= 9_223_372_036_854_775_807)
  }

  predicate UnsignedFits(width: nat, n: int) {
    || (width == 1 && 0 <= n <= 255)
    || (width == 2 && 0 <= n <= 65_535)
    || (width == 4 && 0 <= n <= 4_294_967_295)
    || (width == 8 && 0 <= n <= 18_446_744_073_709_551_615)
  }

  predicate Width(width: nat) {
    width in {1, 2, 4, 8}
  }

  /** The numbers a message may hold are those its fields have room for. */
  lemma TypedIffFits(w: Wire, width: nat, n: int)
    ensures Typed(w, Signed(width), Number(n)) <==> SignedFits(width, n)
    ensures Typed(w, Zigzag(width), Number(n)) <==> SignedFits(width, n)
    ensures Typed(w, Unsigned(width), Number(n)) <==> UnsignedFits(width, n)
    ensures Typed(w, Fixed32, Number(n)) <==> UnsignedFits(4, n)
    ensures Typed(w, Fixed64, Number(n)) <==> UnsignedFits(8, n)
  {
  }

  /** The struct has room for the field at all: a known width, and a terminator for a string. */
  predicate Storable(s: Schema)
    decreases s
  {
    s.Fields? ==> StorableKind(s.first.kind) && Storable(s.rest)
  }

  predicate StorableKind(k: Kind)
    decreases k
  {
    match k
    case Signed(width) => Width(width)
    case Unsigned(width) => Width(width)
    case Zigzag(width) => Width(width)
    case Text(max) => max > 0
    case Sub(schema) => Storable(schema)
    case _ => true
  }

  /** The value fits what the struct has for it. */
  predicate FitsKind(k: Kind, v: Value)
    decreases k, 0
  {
    match k
    case Signed(width) => v.Number? && SignedFits(width, v.n)
    case Unsigned(width) => v.Number? && UnsignedFits(width, v.n)
    case Zigzag(width) => v.Number? && SignedFits(width, v.n)
    case Fixed32 => v.Number? && UnsignedFits(4, v.n)
    case Fixed64 => v.Number? && UnsignedFits(8, v.n)
    case Blob(max) => v.Data? && |v.bytes| <= max
    case Text(max) => v.Data? && |v.bytes| < max
    case FixedBlob(size) => v.Data? && |v.bytes| == size
    case Sub(schema) => v.Message? && FitsAll(schema, v.slots) && Exclusive(schema, v.slots)
  }

  predicate FitsSlot(f: Field, s: Slot)
    decreases f, 0
  {
    match f.rule
    case Required => s.One? && FitsKind(f.kind, s.value)
    case Optional => s.Maybe? && (s.option.Some? ==> FitsKind(f.kind, s.option.value))
    case OneOf(_) => s.Maybe? && (s.option.Some? ==> FitsKind(f.kind, s.option.value))
    case Repeated(max) => s.Many? && |s.values| <= max && forall v <- s.values :: FitsKind(f.kind, v)
    case FixedCount(count) => s.Many? && |s.values| == count && forall v <- s.values :: FitsKind(f.kind, v)
  }

  predicate FitsAll(s: Schema, slots: seq<Slot>)
    decreases s, 0
  {
    if s.End? then slots == []
    else slots != [] && FitsSlot(s.first, slots[0]) && FitsAll(s.rest, slots[1..])
  }

  // ----- slot by slot -----

  lemma {:induction false} FitsLength(s: Schema, slots: seq<Slot>)
    requires FitsAll(s, slots)
    ensures |slots| == Len(s)
    decreases s
  {
    if s.Fields? {
      FitsLength(s.rest, slots[1..]);
    }
  }

  lemma {:induction false} FitsAt(s: Schema, slots: seq<Slot>, i: nat)
    requires FitsAll(s, slots) && i < Len(s)
    ensures |slots| == Len(s) && FitsSlot(FieldAt(s, i), slots[i])
    decreases s
  {
    FitsLength(s, slots);
    if i > 0 {
      FitsAt(s.rest, slots[1..], i - 1);
    }
  }

  lemma {:induction false} FitsUpdated(s: Schema, slots: seq<Slot>, i: nat, slot: Slot)
    requires FitsAll(s, slots) && |slots| == Len(s) && i < Len(s) && FitsSlot(FieldAt(s, i), slot)
    ensures FitsAll(s, slots[i := slot])
    decreases s
  {
    var r := slots[i := slot];
    if i == 0 {
      assert r[1..] == slots[1..];
    } else {
      assert r[1..] == slots[1..][i - 1 := slot];
      FitsUpdated(s.rest, slots[1..], i - 1, slot);
    }
  }

  lemma {:induction false} UnsetFits(s: Schema, slots: seq<Slot>, group: nat)
    requires FitsAll(s, slots) && |slots| == Len(s)
    ensures FitsAll(s, Unset(s, slots, group))
    decreases s
  {
    if s.Fields? {
      UnsetFits(s.rest, slots[1..], group);
      assert Unset(s, slots, group)[1..] == Unset(s.rest, slots[1..], group);
    }
  }

  lemma {:induction false} StorableAt(s: Schema, i: nat)
    requires Storable(s) && i < Len(s)
    ensures StorableKind(FieldAt(s, i).kind)
    decreases s
  {
    if i > 0 {
      StorableAt(s.rest, i - 1);
    }
  }

  // ----- defaults -----

  lemma {:induction false} DefaultFits(k: Kind)
    requires StorableKind(k)
    ensures FitsKind(k, Default(k))
    decreases k, 0
  {
    if k.Sub? {
      DefaultsFit(k.schema);
    }
  }

  lemma {:induction false} DefaultsFit(s: Schema)
    requires Storable(s)
    ensures FitsAll(s, Defaults(s)) && Exclusive(s, Defaults(s))
    decreases s, 0
  {
    if s.Fields? {
      DefaultFits(s.first.kind);
      DefaultsFit(s.rest);
      assert Defaults(s)[1..] == Defaults(s.rest);
    }
    DefaultsExclusive(s);
  }

  lemma {:induction false} DefaultIsUnset(s: Schema, i: nat)
    requires i < Len(s) && FieldAt(s, i).rule.OneOf?
    ensures Defaults(s)[i] == Maybe(None)
    decreases s
  {
    if i > 0 {
      DefaultIsUnset(s.rest, i - 1);
    }
  }

  lemma DefaultsExclusive(s: Schema)
    ensures Exclusive(s, Defaults(s))
  {
    forall i, j | 0 <= i < j < Len(s) && j < |Defaults(s)| && FieldAt(s, i).rule.OneOf? && FieldAt(s, i).rule == FieldAt(s, j).rule
      ensures Defaults(s)[i] == Maybe(None) || Defaults(s)[j] == Maybe(None)
    {
      DefaultIsUnset(s, i);
    }
  }

  // ----- storing -----

  /** The struct fits its fields. */
  predicate Fits(s: Schema, slots: seq<Slot>) {
    |slots| == Len(s) && FitsAll(s, slots) && Exclusive(s, slots)
  }

  lemma StoredFitsSlot(f: Field, slot: Slot, count: nat, v: Value)
    requires FitsSlot(f, slot) && FitsKind(f.kind, v) && HasRoom(f, slot, count)
    ensures match f.rule
      case Required => FitsSlot(f, One(v))
      case Optional => FitsSlot(f, Maybe(Some(v)))
      case OneOf(_) => FitsSlot(f, Maybe(Some(v)))
      case Repeated(_) => FitsSlot(f, Many(slot.values + [v]))
      case FixedCount(_) => FitsSlot(f, Many(slot.values[count := v]))
  {
  }

  lemma StoredFits(s: Schema, slots: seq<Slot>, i: nat, count: nat, v: Value)
    requires Fits(s, slots) && i < Len(s) && FitsKind(FieldAt(s, i).kind, v) && HasRoom(FieldAt(s, i), slots[i], count)
    ensures Fits(s, Stored(s, slots, i, count, v))
  {
    var f := FieldAt(s, i);
    FitsAt(s, slots, i);
    StoredFitsSlot(f, slots[i], count, v);
    if f.rule.OneOf? {
      var unset := Unset(s, slots, f.rule.group);
      UnsetFits(s, slots, f.rule.group);
      FitsUpdated(s, unset, i, Maybe(Some(v)));
      MemberExclusive(s, slots, i, v);
    } else {
      FitsUpdated(s, slots, i, Stored(s, slots, i, count, v)[i]);
    }
  }

  /** Setting a member of a oneof unsets the others. */
  lemma MemberExclusive(s: Schema, slots: seq<Slot>, i: nat, v: Value)
    requires |slots| == Len(s) && i < Len(s) && FieldAt(s, i).rule.OneOf? && Exclusive(s, slots)
    ensures Exclusive(s, Unset(s, slots, FieldAt(s, i).rule.group)[i := Maybe(Some(v))])
  {
  }

  // ----- decoding -----

  lemma NumberFits(w: Wire, k: Kind, input: Bytes)
    requires BoundedFixed(w) && Packable(k) && StorableKind(k)
    ensures DecodeNumber(w, k, input).Some? ==> FitsKind(k, DecodeNumber(w, k, input).value.0)
  {
    assert Power256(4) == 0x1_0000_0000 && Power256(8) == 0x1_0000_0000_0000_0000;
  }

  lemma DataFits(w: Wire, k: Kind, input: Bytes)
    requires k.Blob? || k.Text? || k.FixedBlob?
    ensures DecodeData(w, k, input).Some? ==> FitsKind(k, DecodeData(w, k, input).value.0)
  {
  }

  lemma {:induction false} PackedFits(w: Wire, s: Schema, i: nat, slots: seq<Slot>, count: nat, input: Bytes)
    requires BoundedFixed(w) && Fits(s, slots) && i < Len(s) && Packable(FieldAt(s, i).kind) && StorableKind(FieldAt(s, i).kind)
    ensures var r := DecodePacked(w, s, i, slots, count, input); r.Some? ==> Fits(s, r.value.0)
    decreases |input|
  {
    if input != [] && HasRoom(FieldAt(s, i), slots[i], count) {
      var v := DecodeNumber(w, FieldAt(s, i).kind, input);
      NumberFits(w, FieldAt(s, i).kind, input);
      if v.Some? {
        StoredFits(s, slots, i, count, v.value.0);
        PackedFits(w, s, i, Stored(s, slots, i, count, v.value.0), count + 1, v.value.1);
      }
    }
  }

  lemma TargetFits(f: Field, slot: Slot)
    requires FitsSlot(f, slot) && StorableKind(f.kind)
    ensures FitsKind(f.kind, Target(f, slot))
  {
    DefaultFits(f.kind);
  }

  lemma {:induction false} ValueFits(w: Wire, k: Kind, target: Value, input: Bytes)
    requires BoundedFixed(w) && StorableKind(k) && FitsKind(k, target)
    ensures var r := DecodeValue(w, k, target, input); r.Some? ==> FitsKind(k, r.value.0)
    decreases KindWeight(k), 0, |input|
  {
    if Packable(k) {
      NumberFits(w, k, input);
    } else if !k.Sub? {
      DataFits(w, k, input);
    } else {
      FitsLength(k.schema, target.slots);
      var size := w.get32(input);
      if size.Some? && size.value.0 <= |size.value.1| {
        LoopFits(w, k.schema, target.slots, Start(), size.value.1[..size.value.0]);
      }
    }
  }

  lemma {:induction false} RoundFits(w: Wire, s: Schema, i: nat, wiretype: nat, slots: seq<Slot>, q: Progress, stream: Bytes)
    requires BoundedFixed(w) && Storable(s) && Fits(s, slots) && i < Len(s)
    ensures var r := FieldRound(w, s, i, wiretype, slots, q, stream); r.Some? ==> Fits(s, r.value.0)
    decreases Weight(s), 0, |stream|
  {
    var f := FieldAt(s, i);
    StorableAt(s, i);
    FitsAt(s, slots, i);
    FieldLighter(s, i);
    if IsPacked(f, wiretype) {
      var size := w.get32(stream);
      if size.Some? && size.value.0 <= |size.value.1| {
        PackedFits(w, s, i, slots, q.count, size.value.1[..size.value.0]);
      }
    } else if HasRoom(f, slots[i], q.count) {
      TargetFits(f, slots[i]);
      ValueFits(w, f.kind, Target(f, slots[i]), stream);
      var v := DecodeValue(w, f.kind, Target(f, slots[i]), stream);
      if v.Some? {
        StoredFits(s, slots, i, q.count, v.value.0);
      }
    }
  }

  lemma {:induction false} LoopFits(w: Wire, s: Schema, slots: seq<Slot>, p: Progress, input: Bytes)
    requires BoundedFixed(w) && Storable(s) && Fits(s, slots)
    ensures var r := DecodeLoop(w, s, slots, p, input); r.Some? ==> Fits(s, r.value.0)
    decreases Weight(s), 1, |input|
  {
    var h := DecodeTag(w, input);
    if input != [] && h.Head? {
      var found := FindFrom(s, p.iter.pos, h.tag);
      if found.None? {
        var skipped := SkipField(w, h.wiretype, h.rest);
        if skipped.Some? {
          LoopFits(w, s, slots, p, skipped.value);
        }
      } else {
        var q := Entered(s, At(s, found.value), p);
        if q.Some? {
          RoundFits(w, s, found.value, h.wiretype, slots, q.value, h.rest);
          LoopRound(w, s, slots, p, input, h, found.value, q.value);
          var round := FieldRound(w, s, found.value, h.wiretype, slots, q.value, h.rest);
          if round.Some? {
            LoopFits(w, s, round.value.0, round.value.1, round.value.2);
          }
        }
      }
    }
  }

  /**
   * Whatever the bytes: a message that decodes fits its struct, at every depth.
   * Numbers are within their width, bytes, strings and arrays within their
   * maximum, fixed-count arrays are whole, and a oneof has at most one member.
   */
  lemma DecodedFits(w: Wire, s: Schema, input: Bytes)
    requires BoundedFixed(w) && Storable(s) && Decode(w, s, input).Some?
    ensures Fits(s, Decode(w, s, input).value.0)
  {
    DefaultsFit(s);
    LoopFits(w, s, Defaults(s), Start(), input);
  }

  // ----- which bytes are a value -----

  /** Modulo `bits`, a power of two, the number u read as two's complement is n. */
  predicate Reads(u: nat, n: int, bits: int)
    requires bits > 0
  {
    (u - n) % bits == 0 && -(bits / 2) <= n < bits / 2
  }

  /**
   * A signed field narrower than 64 bits takes the low 32 bits, so that the
   * five-byte form of a negative number is accepted as well; what does not fit
   * the field is refused.
   */
  lemma SignedDecodesIff(w: Wire, width: nat, u: nat, rest: Bytes, n: int)
    requires Width(width) && u < 0x1_0000_0000_0000_0000
    ensures DecodeNumber(w, Signed(width), w.put(u) + rest) == Some((Number(n), rest))
      <==> Reads(u, n, if width == 8 then 0x1_0000_0000_0000_0000 else 0x1_0000_0000) && SignedFits(width, n)
  {
    var bits := if width == 8 then 0x1_0000_0000_0000_0000 else 0x1_0000_0000;
    var m := if u % bits < bits / 2 then u % bits else u % bits - bits;
    ReadsItself(u, bits);
    assert DecodeNumber(w, Signed(width), w.put(u) + rest) == if SignedFits(width, m) then Some((Number(m), rest)) else None;
    if Reads(u, n, bits) {
      ReadingIsUnique(u, n, bits);
    }
  }

  lemma ReadsItself(u: nat, bits: int)
    requires bits == 0x1_0000_0000 || bits == 0x1_0000_0000_0000_0000
    ensures Reads(u, if u % bits < bits / 2 then u % bits else u % bits - bits, bits)
  {
  }

  lemma ReadingIsUnique(u: nat, n: int, bits: int)
    requires bits == 0x1_0000_0000 || bits == 0x1_0000_0000_0000_0000
    requires Reads(u, n, bits)
    ensures n == (if u % bits < bits / 2 then u % bits else u % bits - bits)
  {
  }

  lemma UnsignedDecodesIff(w: Wire, width: nat, u: nat, rest: Bytes)
    requires Width(width) && u < 0x1_0000_0000_0000_0000
    ensures DecodeNumber(w, Unsigned(width), w.put(u) + rest) == if UnsignedFits(width, u) then Some((Number(u), rest)) else None
  {
  }

  /** Even numbers are the non-negative ones, odd ones count down from -1. */
  lemma ZigzagDecodesIff(w: Wire, width: nat, u: nat, rest: Bytes)
    requires Width(width) && u < 0x1_0000_0000_0000_0000
    ensures var n := if u % 2 == 0 then u / 2 else -(u / 2) - 1;
      DecodeNumber(w, Zigzag(width), w.put(u) + rest) == if SignedFits(width, n) then Some((Number(n), rest)) else None
  {
  }

  /** Bytes and strings are refused when they are longer than their buffer, terminator included, or than the stream. */
  lemma DataDecodesIff(w: Wire, k: Kind, b: Bytes, n: nat, rest: Bytes)
    requires (k.Blob? || k.Text?) && n < 0x1_0000_0000
    ensures var fits := (if k.Blob? then n <= k.max else n < k.max) && n <= |rest|;
      DecodeData(w, k, w.put(n) + rest) == if fits then Some((Data(rest[..n]), rest[n..])) else None
  {
  }

  /** The encoder writes a string that fills its buffer to the last byte; the decoder has no room for the terminator. */
  lemma FullStringIsRefused(w: Wire, b: Bytes, rest: Bytes)
    requires |b| < 0x1_0000_0000 && 0 !in b
    ensures PbEncode.Shaped(Text(|b|), Data(b)) && PbEncode.AcceptsValue(Text(|b|), Data(b))
    ensures DecodeData(w, Text(|b|), ValueBytes(w, Text(|b|), Data(b)) + rest) == None
  {
    assert ValueBytes(w, Text(|b|), Data(b)) + rest == w.put(|b|) + (b + rest);
  }

  /** A fixed-length field takes its length, or nothing at all, which reads as zeros. */
  lemma FixedBlobDecodesIff(w: Wire, size: nat, n: nat, rest: Bytes)
    requires n < 0x1_0000_0000
    ensures DecodeData(w, FixedBlob(size), w.put(n) + rest) ==
      if n == 0 then Some((Data(seq(size, _ => 0)), rest))
      else if n == size && n <= |rest| then Some((Data(rest[..n]), rest[n..]))
      else None
  {
  }

  /** An unknown field of a wire type that does not exist ends the decoding. */
  lemma BadWireTypeRefused(w: Wire, s: Schema, slots: seq<Slot>, p: Progress, tag: nat, wiretype: nat, rest: Bytes)
    requires |slots| == Len(s) && 0 < tag < 0x2000_0000 && (wiretype == 3 || wiretype == 4 || wiretype == 6 || wiretype == 7)
    requires forall i :: 0 <= i < Len(s) ==> FieldAt(s, i).tag != tag
    ensures DecodeLoop(w, s, slots, p, w.put(8 * tag + wiretype) + rest) == None
  {
    var b := w.put(8 * tag + wiretype) + rest;
    assert DecodeTag(w, b) == Head(tag, wiretype, rest) && b != [];
    assert FindFrom(s, p.iter.pos, tag) == None;
  }
}
