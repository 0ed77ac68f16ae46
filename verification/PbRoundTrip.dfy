/**
 * Decoding what the encoder wrote: every in-range message of every well-formed
 * schema comes back unchanged, and every byte is consumed.
 */
module PbRoundTrip {
  import opened InternalKeys
  import opened Coding
  import opened PbVarints
  import opened PbSchema
  import opened PbFields
  import opened PbDecode

  // ----- single values -----

  lemma SignedRoundTrip(width: nat, n: int)
    requires InSigned(width, n)
    ensures ToSigned(width, Pattern64(n)) == Some(n)
  {
    assert width != 8 ==> Pattern64(n) % TWO_32 == n % TWO_32;
  }

  lemma VarintNumberRoundTrip(w: Wire, k: Kind, v: Value, rest: Bytes)
    requires (k.Signed? || k.Unsigned? || k.Zigzag?) && Typed(w, k, v)
    ensures DecodeNumber(w, k, ValueBytes(w, k, v) + rest) == Some((v, rest))
  {
    match k
    case Signed(width) => SignedRoundTrip(width, v.n);
    case Zigzag(width) => ZigZagBijection(v.n, 0);
    case Unsigned(width) =>
  }

  lemma FixedNumberRoundTrip(w: Wire, k: Kind, v: Value, rest: Bytes)
    requires (k.Fixed32? || k.Fixed64?) && Typed(w, k, v)
    ensures DecodeNumber(w, k, ValueBytes(w, k, v) + rest) == Some((v, rest))
  {
    var width := if k.Fixed32? then 4 else 8;
    var b := ValueBytes(w, k, v);
    assert Power256(4) == TWO_32 && Power256(8) == TWO_64;
    assert (b + rest)[..width] == b && (b + rest)[width..] == rest;
  }

  lemma NumberRoundTrip(w: Wire, k: Kind, v: Value, rest: Bytes)
    requires Packable(k) && Typed(w, k, v)
    ensures DecodeNumber(w, k, ValueBytes(w, k, v) + rest) == Some((v, rest))
  {
    if k.Fixed32? || k.Fixed64? {
      FixedNumberRoundTrip(w, k, v, rest);
    } else {
      VarintNumberRoundTrip(w, k, v, rest);
    }
  }

  lemma PrefixedRoundTrip(w: Wire, b: Bytes, rest: Bytes)
    requires |b| < TWO_32
    ensures w.get32(LengthPrefixed(w, b) + rest) == Some((|b|, b + rest))
    ensures Take(b + rest, |b|) == Some((b, rest)) && (b + rest)[..|b|] == b && (b + rest)[|b|..] == rest
  {
    assert LengthPrefixed(w, b) + rest == w.put(|b|) + (b + rest);
  }

  lemma DataRoundTrip(w: Wire, k: Kind, v: Value, rest: Bytes)
    requires (k.Blob? || k.Text? || k.FixedBlob?) && Typed(w, k, v)
    ensures DecodeData(w, k, ValueBytes(w, k, v) + rest) == Some((v, rest))
  {
    PrefixedRoundTrip(w, v.bytes, rest);
    if k.FixedBlob? && |v.bytes| == 0 {
      assert v.bytes == seq(k.size, _ => 0);
      assert v.bytes + rest == rest;
    }
  }

  lemma TagRoundTrip(w: Wire, tag: nat, wiretype: nat, rest: Bytes)
    requires 0 < tag < 0x2000_0000 && wiretype < 8
    ensures DecodeTag(w, TagBytes(w, tag, wiretype) + rest) == Head(tag, wiretype, rest)
  {
  }

  // ----- finding fields -----

  lemma {:induction false} FieldAtOk(s: Schema, i: nat)
    requires i < Len(s) && FieldsOk(s)
    ensures FieldOk(FieldAt(s, i))
  {
    if i > 0 {
      FieldAtOk(s.rest, i - 1);
    }
  }

  /** What the loop needs to know about field i to take one of its records. */
  ghost predicate Reachable(s: Schema, i: nat) {
    i < Len(s) && 0 < FieldAt(s, i).tag < 0x2000_0000 && forall pos: nat :: FindFrom(s, pos, FieldAt(s, i).tag) == Some(i)
  }

  lemma SchemaReachable(s: Schema, i: nat)
    requires SchemaOk(s) && i < Len(s)
    ensures Reachable(s, i)
  {
    forall pos: nat ensures FindFrom(s, pos, FieldAt(s, i).tag) == Some(i) {
      FindFromAnywhere(s, pos, FieldAt(s, i).tag);
      FindIs(s, i, FieldAt(s, i).tag);
    }
    FieldAtOk(s, i);
  }

  // ----- one record of the stream -----

  lemma RoundValue(w: Wire, s: Schema, slots: seq<Slot>, q: Progress, i: nat, v: Value, stream: Bytes, rest: Bytes)
    requires |slots| == Len(s) && i < Len(s) && HasRoom(FieldAt(s, i), slots[i], q.count)
    requires DecodeValue(w, FieldAt(s, i).kind, Target(FieldAt(s, i), slots[i]), stream) == Some((v, rest))
    ensures FieldRound(w, s, i, WireType(FieldAt(s, i).kind), slots, q, stream)
         == Some((Stored(s, slots, i, q.count, v), Counted(FieldAt(s, i), q, q.count + 1), rest))
  {
  }

  lemma TagFirst(w: Wire, s: Schema, i: nat, wiretype: nat, body: Bytes, rest: Bytes)
    requires Reachable(s, i) && wiretype < 8
    ensures var input := TagBytes(w, FieldAt(s, i).tag, wiretype) + body + rest;
      DecodeTag(w, input) == Head(FieldAt(s, i).tag, wiretype, body + rest) && input != []
  {
    var tag := TagBytes(w, FieldAt(s, i).tag, wiretype);
    assert tag + body + rest == tag + (body + rest);
    TagRoundTrip(w, FieldAt(s, i).tag, wiretype, body + rest);
  }

  /** A record of field i that is not packed: its value is stored and the loop goes on. */
  lemma LoopValue(w: Wire, s: Schema, slots: seq<Slot>, p: Progress, q: Progress, i: nat, v: Value, rest: Bytes)
    requires |slots| == Len(s) && Reachable(s, i) && Entered(s, At(s, i), p) == Some(q)
    requires HasRoom(FieldAt(s, i), slots[i], q.count)
    requires DecodeValue(w, FieldAt(s, i).kind, Target(FieldAt(s, i), slots[i]), ValueBytes(w, FieldAt(s, i).kind, v) + rest) == Some((v, rest))
    ensures DecodeLoop(w, s, slots, p, TaggedBytes(w, FieldAt(s, i), v) + rest)
         == DecodeLoop(w, s, Stored(s, slots, i, q.count, v), Counted(FieldAt(s, i), q, q.count + 1), rest)
  {
    var f := FieldAt(s, i);
    var input := TaggedBytes(w, f, v) + rest;
    TagFirst(w, s, i, WireType(f.kind), ValueBytes(w, f.kind, v), rest);
    RoundValue(w, s, slots, q, i, v, ValueBytes(w, f.kind, v) + rest, rest);
    LoopRound(w, s, slots, p, input, DecodeTag(w, input), i, q);
  }

  lemma RoundPacked(w: Wire, s: Schema, slots: seq<Slot>, q: Progress, i: nat, body: Bytes, items: seq<Slot>, count: nat, rest: Bytes)
    requires |slots| == Len(s) && i < Len(s) && |body| < TWO_32 && IsPacked(FieldAt(s, i), 2)
    requires DecodePacked(w, s, i, slots, q.count, body) == Some((items, count))
    ensures FieldRound(w, s, i, 2, slots, q, LengthPrefixed(w, body) + rest) == Some((items, Counted(FieldAt(s, i), q, count), rest))
  {
    PrefixedRoundTrip(w, body, rest);
  }

  /** A packed record of field i. */
  lemma LoopPacked(w: Wire, s: Schema, slots: seq<Slot>, p: Progress, q: Progress, i: nat, body: Bytes,
                   items: seq<Slot>, count: nat, rest: Bytes)
    requires |slots| == |items| == Len(s) && Reachable(s, i) && Entered(s, At(s, i), p) == Some(q) && |body| < TWO_32
    requires IsPacked(FieldAt(s, i), 2) && DecodePacked(w, s, i, slots, q.count, body) == Some((items, count))
    ensures DecodeLoop(w, s, slots, p, TagBytes(w, FieldAt(s, i).tag, 2) + LengthPrefixed(w, body) + rest)
         == DecodeLoop(w, s, items, Counted(FieldAt(s, i), q, count), rest)
  {
    var input := TagBytes(w, FieldAt(s, i).tag, 2) + LengthPrefixed(w, body) + rest;
    TagFirst(w, s, i, 2, LengthPrefixed(w, body), rest);
    RoundPacked(w, s, slots, q, i, body, items, count, rest);
    LoopRound(w, s, slots, p, input, DecodeTag(w, input), i, q);
  }

  // ----- arrays -----

  predicate IsArray(f: Field) {
    f.rule.Repeated? || f.rule.FixedCount?
  }

  /** n more values fit. */
  predicate ArrayFits(f: Field, s: Slot, count: nat, n: nat) {
    s.Many? &&
    match f.rule
    case Repeated(max) => |s.values| + n <= max
    case FixedCount(total) => |s.values| == total && count + n <= total
    case _ => false
  }

  /** The array after receiving vs: appended, or written over the places from `count` on. */
  function Received(f: Field, values: seq<Value>, count: nat, vs: seq<Value>): seq<Value>
    requires f.rule.FixedCount? ==> count + |vs| <= |values|
  {
    if f.rule.FixedCount? then values[..count] + vs + values[count + |vs|..] else values + vs
  }

  lemma ReceivedOne(f: Field, values: seq<Value>, count: nat, v: Value)
    requires f.rule.FixedCount? ==> count < |values|
    ensures Received(f, values, count, [v]) == if f.rule.FixedCount? then values[count := v] else values + [v]
  {
  }

  lemma ReceivedMore(f: Field, values: seq<Value>, count: nat, vs: seq<Value>)
    requires vs != [] && (f.rule.FixedCount? ==> count + |vs| <= |values|)
    ensures var next := Received(f, values, count, [vs[0]]);
      |next| == (if f.rule.FixedCount? then |values| else |values| + 1) &&
      Received(f, next, count + 1, vs[1..]) == Received(f, values, count, vs)
  {
    var next := Received(f, values, count, [vs[0]]);
    if f.rule.FixedCount? {
      assert next[..count + 1] == values[..count] + [vs[0]];
      assert next[count + |vs|..] == values[count + |vs|..];
      assert values[..count] + [vs[0]] + vs[1..] == values[..count] + vs;
    } else {
      assert values + [vs[0]] + vs[1..] == values + vs;
    }
  }

  lemma ReceivedNone(f: Field, values: seq<Value>, count: nat)
    requires f.rule.FixedCount? ==> count <= |values|
    ensures Received(f, values, count, []) == values
  {
  }

  lemma StoredInArray(s: Schema, slots: seq<Slot>, i: nat, count: nat, v: Value, n: nat)
    requires |slots| == Len(s) && i < Len(s) && n > 0 && ArrayFits(FieldAt(s, i), slots[i], count, n)
    ensures HasRoom(FieldAt(s, i), slots[i], count)
    ensures Stored(s, slots, i, count, v) == slots[i := Many(Received(FieldAt(s, i), slots[i].values, count, [v]))]
    ensures ArrayFits(FieldAt(s, i), Stored(s, slots, i, count, v)[i], count + 1, n - 1)
  {
    ReceivedOne(FieldAt(s, i), slots[i].values, count, v);
  }

  /** The slots after receiving vs for field i. */
  function Filled(s: Schema, slots: seq<Slot>, i: nat, count: nat, vs: seq<Value>): (r: seq<Slot>)
    requires |slots| == Len(s) && i < Len(s) && ArrayFits(FieldAt(s, i), slots[i], count, |vs|)
    ensures |r| == |slots|
  {
    slots[i := Many(Received(FieldAt(s, i), slots[i].values, count, vs))]
  }

  lemma FilledMore(s: Schema, slots: seq<Slot>, i: nat, count: nat, vs: seq<Value>)
    requires |slots| == Len(s) && i < Len(s) && vs != [] && ArrayFits(FieldAt(s, i), slots[i], count, |vs|)
    ensures HasRoom(FieldAt(s, i), slots[i], count)
    ensures var next := Stored(s, slots, i, count, vs[0]);
      && ArrayFits(FieldAt(s, i), next[i], count + 1, |vs| - 1)
      && Filled(s, next, i, count + 1, vs[1..]) == Filled(s, slots, i, count, vs)
      && (FieldAt(s, i).rule.Repeated? ==> Filled(s, next, i, count, vs[1..]) == Filled(s, slots, i, count, vs))
  {
    StoredInArray(s, slots, i, count, vs[0], |vs|);
    ReceivedMore(FieldAt(s, i), slots[i].values, count, vs);
  }

  lemma FilledNone(s: Schema, slots: seq<Slot>, i: nat, count: nat)
    requires |slots| == Len(s) && i < Len(s) && ArrayFits(FieldAt(s, i), slots[i], count, 0)
    ensures Filled(s, slots, i, count, []) == slots
  {
    ReceivedNone(FieldAt(s, i), slots[i].values, count);
  }

  lemma FirstItem(w: Wire, s: Schema, i: nat, slots: seq<Slot>, count: nat, vs: seq<Value>)
    requires |slots| == Len(s) && i < Len(s) && Packable(FieldAt(s, i).kind) && HasRoom(FieldAt(s, i), slots[i], count)
    requires vs != [] && Typed(w, FieldAt(s, i).kind, vs[0])
    ensures DecodePacked(w, s, i, slots, count, PackedBytes(w, FieldAt(s, i).kind, vs))
         == DecodePacked(w, s, i, Stored(s, slots, i, count, vs[0]), count + 1, PackedBytes(w, FieldAt(s, i).kind, vs[1..]))
  {
    NumberRoundTrip(w, FieldAt(s, i).kind, vs[0], PackedBytes(w, FieldAt(s, i).kind, vs[1..]));
  }

  lemma {:induction false} PackedItems(w: Wire, s: Schema, i: nat, slots: seq<Slot>, count: nat, vs: seq<Value>)
    requires |slots| == Len(s) && i < Len(s) && Packable(FieldAt(s, i).kind) && ArrayFits(FieldAt(s, i), slots[i], count, |vs|)
    requires forall v <- vs :: Typed(w, FieldAt(s, i).kind, v)
    ensures DecodePacked(w, s, i, slots, count, PackedBytes(w, FieldAt(s, i).kind, vs)) == Some((Filled(s, slots, i, count, vs), count + |vs|))
    decreases |vs|
  {
    var k := FieldAt(s, i).kind;
    if vs == [] {
      FilledNone(s, slots, i, count);
    } else {
      FilledMore(s, slots, i, count, vs);
      FirstItem(w, s, i, slots, count, vs);
      PackedItems(w, s, i, Stored(s, slots, i, count, vs[0]), count + 1, vs[1..]);
    }
  }

  /** Values of this kind are decoded back, into fresh storage. */
  ghost predicate ValuesDecode(w: Wire, k: Kind) {
    forall v: Value, rest: Bytes | Typed(w, k, v) :: DecodeValue(w, k, Default(k), ValueBytes(w, k, v) + rest) == Some((v, rest))
  }

  lemma ArrayTarget(f: Field, s: Slot)
    requires s.Many?
    ensures Target(f, s) == Default(f.kind)
  {
  }

  lemma FirstRecord(w: Wire, s: Schema, i: nat, slots: seq<Slot>, p: Progress, q: Progress, vs: seq<Value>, rest: Bytes)
    requires |slots| == Len(s) && Reachable(s, i) && Entered(s, At(s, i), p) == Some(q) && vs != []
    requires slots[i].Many? && HasRoom(FieldAt(s, i), slots[i], q.count)
    requires ValuesDecode(w, FieldAt(s, i).kind) && Typed(w, FieldAt(s, i).kind, vs[0])
    ensures DecodeLoop(w, s, slots, p, RepeatedBytes(w, FieldAt(s, i), vs) + rest)
         == DecodeLoop(w, s, Stored(s, slots, i, q.count, vs[0]), Counted(FieldAt(s, i), q, q.count + 1), RepeatedBytes(w, FieldAt(s, i), vs[1..]) + rest)
  {
    var f := FieldAt(s, i);
    var more := RepeatedBytes(w, f, vs[1..]) + rest;
    assert RepeatedBytes(w, f, vs) + rest == TaggedBytes(w, f, vs[0]) + more;
    ArrayTarget(f, slots[i]);
    LoopValue(w, s, slots, p, q, i, vs[0], more);
  }

  /** While an array is being received, entering it again changes nothing. */
  predicate Inside(s: Schema, i: nat, q: Progress)
    requires i < Len(s)
  {
    IsArray(FieldAt(s, i)) && q.iter == At(s, i) && (FieldAt(s, i).rule.FixedCount? ==> q.filling == Some(i))
  }

  lemma EnteredInside(s: Schema, i: nat, p: Progress, q: Progress, count: nat)
    requires i < Len(s) && IsArray(FieldAt(s, i)) && Entered(s, At(s, i), p) == Some(q)
    ensures Inside(s, i, q) && Inside(s, i, Counted(FieldAt(s, i), q, count))
  {
  }

  /** The struct and the count after one more value, as the rest of the array finds them. */
  lemma ArrayStep(s: Schema, i: nat, slots: seq<Slot>, q: Progress, vs: seq<Value>)
    requires |slots| == Len(s) && i < Len(s) && Inside(s, i, q) && vs != [] && ArrayFits(FieldAt(s, i), slots[i], q.count, |vs|)
    ensures HasRoom(FieldAt(s, i), slots[i], q.count) && Entered(s, At(s, i), q) == Some(q)
    ensures var next, q' := Stored(s, slots, i, q.count, vs[0]), Counted(FieldAt(s, i), q, q.count + 1);
      && Inside(s, i, q') && ArrayFits(FieldAt(s, i), next[i], q'.count, |vs[1..]|)
      && Filled(s, next, i, q'.count, vs[1..]) == Filled(s, slots, i, q.count, vs)
      && Counted(FieldAt(s, i), q', q'.count + |vs[1..]|) == Counted(FieldAt(s, i), q, q.count + |vs|)
  {
    FilledMore(s, slots, i, q.count, vs);
  }

  /** The decoding loop from some point on, as a function of where it stands. */
  type Loop = (seq<Slot>, Progress, Bytes) -> Option<(seq<Slot>, Bytes)>

  function LoopOf(w: Wire, s: Schema): Loop {
    (slots: seq<Slot>, p: Progress, input: Bytes) => if |slots| == Len(s) then DecodeLoop(w, s, slots, p, input) else None
  }

  predicate InArray(w: Wire, s: Schema, i: nat, slots: seq<Slot>, q: Progress, vs: seq<Value>) {
    |slots| == Len(s) && i < Len(s) && Inside(s, i, q) && ArrayFits(FieldAt(s, i), slots[i], q.count, |vs|)
    && forall v <- vs :: Typed(w, FieldAt(s, i).kind, v)
  }

  /** From here the loop takes the first record of the array. */
  predicate TakesRecord(w: Wire, s: Schema, i: nat, loop: Loop, slots: seq<Slot>, p: Progress, q: Progress, vs: seq<Value>, rest: Bytes) {
    InArray(w, s, i, slots, q, vs) && Entered(s, At(s, i), p) == Some(q) && vs != [] && HasRoom(FieldAt(s, i), slots[i], q.count) ==>
      loop(slots, p, RepeatedBytes(w, FieldAt(s, i), vs) + rest)
        == loop(Stored(s, slots, i, q.count, vs[0]), Counted(FieldAt(s, i), q, q.count + 1), RepeatedBytes(w, FieldAt(s, i), vs[1..]) + rest)
  }

  ghost predicate TakesRecords(w: Wire, s: Schema, i: nat, loop: Loop) {
    forall slots: seq<Slot>, p: Progress, q: Progress, vs: seq<Value>, rest: Bytes :: TakesRecord(w, s, i, loop, slots, p, q, vs, rest)
  }

  lemma LoopTakesRecord(w: Wire, s: Schema, i: nat, slots: seq<Slot>, p: Progress, q: Progress, vs: seq<Value>, rest: Bytes)
    requires Reachable(s, i) && ValuesDecode(w, FieldAt(s, i).kind)
    ensures TakesRecord(w, s, i, LoopOf(w, s), slots, p, q, vs, rest)
  {
    if InArray(w, s, i, slots, q, vs) && Entered(s, At(s, i), p) == Some(q) && vs != [] && HasRoom(FieldAt(s, i), slots[i], q.count) {
      FirstRecord(w, s, i, slots, p, q, vs, rest);
    }
  }

  lemma LoopTakesRecords(w: Wire, s: Schema, i: nat)
    requires Reachable(s, i) && ValuesDecode(w, FieldAt(s, i).kind)
    ensures TakesRecords(w, s, i, LoopOf(w, s))
  {
    forall slots: seq<Slot>, p: Progress, q: Progress, vs: seq<Value>, rest: Bytes
      ensures TakesRecord(w, s, i, LoopOf(w, s), slots, p, q, vs, rest)
    {
      LoopTakesRecord(w, s, i, slots, p, q, vs, rest);
    }
  }

  /** Records of an unpacked array, one after the other. */
  lemma {:induction false} RepeatedRecords(w: Wire, s: Schema, i: nat, loop: Loop, slots: seq<Slot>, p: Progress, q: Progress, vs: seq<Value>, rest: Bytes)
    requires TakesRecords(w, s, i, loop) && InArray(w, s, i, slots, q, vs) && Entered(s, At(s, i), p) == Some(q) && vs != []
    ensures loop(slots, p, RepeatedBytes(w, FieldAt(s, i), vs) + rest)
         == loop(Filled(s, slots, i, q.count, vs), Counted(FieldAt(s, i), q, q.count + |vs|), rest)
    decreases |vs|
  {
    var f := FieldAt(s, i);
    ArrayStep(s, i, slots, q, vs);
    assert TakesRecord(w, s, i, loop, slots, p, q, vs, rest);
    var next, q' := Stored(s, slots, i, q.count, vs[0]), Counted(f, q, q.count + 1);
    if |vs| == 1 {
      FilledNone(s, next, i, q'.count);
      assert RepeatedBytes(w, f, vs[1..]) + rest == rest;
    } else {
      ArrayStep(s, i, next, q', vs[1..]);
      RepeatedRecords(w, s, i, loop, next, q', q', vs[1..], rest);
    }
  }

  lemma ArrayRecords(w: Wire, s: Schema, i: nat, slots: seq<Slot>, p: Progress, q: Progress, vs: seq<Value>, rest: Bytes)
    requires Reachable(s, i) && ValuesDecode(w, FieldAt(s, i).kind) && Entered(s, At(s, i), p) == Some(q)
    requires InArray(w, s, i, slots, q, vs) && vs != []
    ensures DecodeLoop(w, s, slots, p, RepeatedBytes(w, FieldAt(s, i), vs) + rest)
         == DecodeLoop(w, s, Filled(s, slots, i, q.count, vs), Counted(FieldAt(s, i), q, q.count + |vs|), rest)
  {
    LoopTakesRecords(w, s, i);
    RepeatedRecords(w, s, i, LoopOf(w, s), slots, p, q, vs, rest);
  }

  // ----- one field -----

  /** The struct when the fields before i have been decoded: theirs, then defaults. */
  function Mixed(s: Schema, m: seq<Slot>, i: nat): (r: seq<Slot>)
    requires |m| == Len(s) && i <= Len(s)
    ensures |r| == Len(s)
  {
    m[..i] + Defaults(s)[i..]
  }

  lemma {:induction false} DefaultAt(s: Schema, i: nat)
    requires i < Len(s)
    ensures Defaults(s)[i] == DefaultSlot(FieldAt(s, i))
  {
    if i > 0 {
      DefaultAt(s.rest, i - 1);
    }
  }

  lemma {:induction false} TypedAt(w: Wire, s: Schema, m: seq<Slot>, i: nat)
    requires TypedSlots(w, s, m) && i < Len(s)
    ensures |m| == Len(s) && TypedSlot(w, FieldAt(s, i), m[i])
  {
    TypedLength(w, s, m);
    if i > 0 {
      TypedAt(w, s.rest, m[1..], i - 1);
    }
  }

  lemma {:induction false} TypedLength(w: Wire, s: Schema, m: seq<Slot>)
    requires TypedSlots(w, s, m)
    ensures |m| == Len(s)
    decreases s
  {
    if s.Fields? {
      TypedLength(w, s.rest, m[1..]);
    }
  }

  lemma MixedNext(s: Schema, m: seq<Slot>, i: nat)
    requires |m| == Len(s) && i < Len(s)
    ensures Mixed(s, m, i)[i] == DefaultSlot(FieldAt(s, i))
    ensures Mixed(s, m, i)[i := m[i]] == Mixed(s, m, i + 1)
    ensures m[i] == DefaultSlot(FieldAt(s, i)) ==> Mixed(s, m, i) == Mixed(s, m, i + 1)
  {
    DefaultAt(s, i);
  }

  /** The fields before i are accounted for. */
  ghost predicate OkSoFar(s: Schema, p: Progress, i: nat) {
    && i <= Len(s) && !ArrayOpen(s, p) && (p.filling.Some? ==> p.filling.value < i)
    && MarkedUpTo(p.words, RequiredIndex(s, i))
  }

  /** Nothing was written for the field. */
  lemma StepAbsent(s: Schema, m: seq<Slot>, i: nat, p: Progress)
    requires |m| == Len(s) && i < Len(s) && OkSoFar(s, p, i)
    requires m[i] == DefaultSlot(FieldAt(s, i)) && !FieldAt(s, i).rule.Required?
    ensures Mixed(s, m, i) == Mixed(s, m, i + 1) && OkSoFar(s, p, i + 1)
  {
    MixedNext(s, m, i);
    RequiredNext(s, i);
  }

  lemma MemberUnset(s: Schema, m: seq<Slot>, i: nat, j: nat)
    requires |m| == Len(s) && i < Len(s) && j < Len(s) && Exclusive(s, m) && m[i] != Maybe(None)
    requires FieldAt(s, i).rule.OneOf? && FieldAt(s, j).rule == FieldAt(s, i).rule
    ensures Mixed(s, m, i)[j] == Maybe(None)
  {
    if j < i {
      assert Mixed(s, m, i)[j] == m[j];
    } else {
      DefaultAt(s, j);
    }
  }

  /** The other members of the oneof are unset already. */
  lemma UnsetNothing(s: Schema, m: seq<Slot>, i: nat)
    requires |m| == Len(s) && i < Len(s) && FieldAt(s, i).rule.OneOf? && Exclusive(s, m) && m[i] != Maybe(None)
    ensures Unset(s, Mixed(s, m, i), FieldAt(s, i).rule.group) == Mixed(s, m, i)
  {
    var slots := Mixed(s, m, i);
    forall j: nat | j < Len(s) && FieldAt(s, j).rule == FieldAt(s, i).rule ensures slots[j] == Maybe(None) {
      MemberUnset(s, m, i, j);
    }
    UnsetSame(s, slots, FieldAt(s, i).rule.group);
  }

  lemma UnsetSame(s: Schema, slots: seq<Slot>, group: nat)
    requires |slots| == Len(s) && forall j: nat :: j < Len(s) && FieldAt(s, j).rule == OneOf(group) ==> slots[j] == Maybe(None)
    ensures Unset(s, slots, group) == slots
  {
  }

  /** A value of the message, stored where it belongs. */
  lemma StoredSingle(s: Schema, m: seq<Slot>, i: nat, v: Value, count: nat)
    requires |m| == Len(s) && i < Len(s) && !IsArray(FieldAt(s, i)) && Exclusive(s, m)
    requires m[i] == if FieldAt(s, i).rule.Required? then One(v) else Maybe(Some(v))
    ensures HasRoom(FieldAt(s, i), Mixed(s, m, i)[i], count) && Target(FieldAt(s, i), Mixed(s, m, i)[i]) == Default(FieldAt(s, i).kind)
    ensures Stored(s, Mixed(s, m, i), i, count, v) == Mixed(s, m, i + 1)
  {
    MixedNext(s, m, i);
    if FieldAt(s, i).rule.OneOf? {
      UnsetNothing(s, m, i);
    }
  }

  lemma StepSingle(w: Wire, s: Schema, m: seq<Slot>, i: nat, p: Progress, v: Value, rest: Bytes) returns (p': Progress)
    requires |m| == Len(s) && Reachable(s, i) && !IsArray(FieldAt(s, i)) && Exclusive(s, m) && OkSoFar(s, p, i)
    requires m[i] == if FieldAt(s, i).rule.Required? then One(v) else Maybe(Some(v))
    requires ValuesDecode(w, FieldAt(s, i).kind) && Typed(w, FieldAt(s, i).kind, v)
    ensures OkSoFar(s, p', i + 1)
    ensures DecodeLoop(w, s, Mixed(s, m, i), p, TaggedBytes(w, FieldAt(s, i), v) + rest) == DecodeLoop(w, s, Mixed(s, m, i + 1), p', rest)
  {
    p' := SingleProgress(s, i, p);
    StoredSingle(s, m, i, v, p'.count);
    LoopValue(w, s, Mixed(s, m, i), p, p', i, v, rest);
  }

  lemma SingleProgress(s: Schema, i: nat, p: Progress) returns (p': Progress)
    requires i < Len(s) && !IsArray(FieldAt(s, i)) && OkSoFar(s, p, i)
    ensures Entered(s, At(s, i), p) == Some(p') && Counted(FieldAt(s, i), p', p'.count + 1) == p' && OkSoFar(s, p', i + 1)
  {
    p' := Entered(s, At(s, i), p).value;
    NotedInOrder(s, i, p.words);
  }

  lemma ArrayProgress(s: Schema, i: nat, p: Progress, n: nat) returns (q: Progress, p': Progress)
    requires i < Len(s) && IsArray(FieldAt(s, i)) && OkSoFar(s, p, i)
    requires FieldAt(s, i).rule.FixedCount? ==> n == FieldAt(s, i).rule.count
    ensures Entered(s, At(s, i), p) == Some(q) && (FieldAt(s, i).rule.FixedCount? ==> q.count == 0)
    ensures p' == Counted(FieldAt(s, i), q, q.count + n) && OkSoFar(s, p', i + 1)
  {
    q := Entered(s, At(s, i), p).value;
    p' := Counted(FieldAt(s, i), q, q.count + n);
    RequiredNext(s, i);
  }

  /** The defaults have room for the array, which then is the message's. */
  lemma FilledArray(s: Schema, m: seq<Slot>, i: nat, count: nat)
    requires |m| == Len(s) && i < Len(s) && IsArray(FieldAt(s, i)) && m[i].Many?
    requires FieldAt(s, i).rule.FixedCount? ==> count == 0 && |m[i].values| == FieldAt(s, i).rule.count
    requires FieldAt(s, i).rule.Repeated? ==> |m[i].values| <= FieldAt(s, i).rule.max
    ensures ArrayFits(FieldAt(s, i), Mixed(s, m, i)[i], count, |m[i].values|)
    ensures Filled(s, Mixed(s, m, i), i, count, m[i].values) == Mixed(s, m, i + 1)
  {
    MixedNext(s, m, i);
    var f, vs := FieldAt(s, i), m[i].values;
    var d := Mixed(s, m, i)[i].values;
    assert Received(f, d, count, vs) == vs;
  }

  lemma StepPacked(w: Wire, s: Schema, m: seq<Slot>, i: nat, p: Progress, rest: Bytes) returns (p': Progress)
    requires |m| == Len(s) && Reachable(s, i) && IsArray(FieldAt(s, i)) && Packable(FieldAt(s, i).kind) && OkSoFar(s, p, i)
    requires TypedSlot(w, FieldAt(s, i), m[i])
    ensures OkSoFar(s, p', i + 1)
    ensures DecodeLoop(w, s, Mixed(s, m, i), p, TagBytes(w, FieldAt(s, i).tag, 2) + LengthPrefixed(w, PackedBytes(w, FieldAt(s, i).kind, m[i].values)) + rest)
         == DecodeLoop(w, s, Mixed(s, m, i + 1), p', rest)
  {
    var vs := m[i].values;
    var q;
    q, p' := ArrayProgress(s, i, p, |vs|);
    FilledArray(s, m, i, q.count);
    PackedItems(w, s, i, Mixed(s, m, i), q.count, vs);
    LoopPacked(w, s, Mixed(s, m, i), p, q, i, PackedBytes(w, FieldAt(s, i).kind, vs), Mixed(s, m, i + 1), q.count + |vs|, rest);
  }

  lemma StepUnpacked(w: Wire, s: Schema, m: seq<Slot>, i: nat, p: Progress, rest: Bytes) returns (p': Progress)
    requires |m| == Len(s) && Reachable(s, i) && IsArray(FieldAt(s, i)) && OkSoFar(s, p, i)
    requires TypedSlot(w, FieldAt(s, i), m[i]) && m[i].values != [] && ValuesDecode(w, FieldAt(s, i).kind)
    ensures OkSoFar(s, p', i + 1)
    ensures DecodeLoop(w, s, Mixed(s, m, i), p, RepeatedBytes(w, FieldAt(s, i), m[i].values) + rest) == DecodeLoop(w, s, Mixed(s, m, i + 1), p', rest)
  {
    var f, vs := FieldAt(s, i), m[i].values;
    var q;
    q, p' := ArrayProgress(s, i, p, |vs|);
    FilledArray(s, m, i, q.count);
    EnteredInside(s, i, p, q, 0);
    ArrayRecords(w, s, i, Mixed(s, m, i), p, q, vs, rest);
  }

  // ----- whole messages -----

  /** From field i on: each slot's bytes fill that slot. */
  lemma StepSlot(w: Wire, s: Schema, m: seq<Slot>, i: nat, p: Progress, rest: Bytes) returns (p': Progress)
    requires |m| == Len(s) && Reachable(s, i) && Exclusive(s, m) && OkSoFar(s, p, i)
    requires TypedSlot(w, FieldAt(s, i), m[i]) && ValuesDecode(w, FieldAt(s, i).kind)
    ensures OkSoFar(s, p', i + 1)
    ensures DecodeLoop(w, s, Mixed(s, m, i), p, SlotBytes(w, FieldAt(s, i), m[i]) + rest) == DecodeLoop(w, s, Mixed(s, m, i + 1), p', rest)
  {
    var f := FieldAt(s, i);
    if m[i].One? {
      p' := StepSingle(w, s, m, i, p, m[i].value, rest);
    } else if m[i].Maybe? && m[i].option.Some? {
      p' := StepSingle(w, s, m, i, p, m[i].option.value, rest);
    } else if m[i].Many? && m[i].values != [] {
      if Packable(f.kind) {
        p' := StepPacked(w, s, m, i, p, rest);
      } else {
        p' := StepUnpacked(w, s, m, i, p, rest);
      }
    } else {
      assert SlotBytes(w, f, m[i]) == [] && [] + rest == rest;
      p' := p;
      StepAbsent(s, m, i, p);
    }
  }

  lemma {:induction false} DropStep(s: Schema, i: nat)
    requires i < Len(s)
    ensures Drop(s, i).Fields? && Drop(s, i).first == FieldAt(s, i) && Drop(s, i).rest == Drop(s, i + 1)
  {
    if i > 0 {
      DropStep(s.rest, i - 1);
    }
  }

  lemma {:induction false} DropAll(s: Schema)
    ensures Drop(s, Len(s)) == End
  {
    if s.Fields? {
      DropAll(s.rest);
    }
  }

  lemma MessageBytesFrom(w: Wire, s: Schema, m: seq<Slot>, i: nat)
    requires |m| == Len(s) && i < Len(s)
    ensures MessageBytes(w, Drop(s, i), m[i..]) == SlotBytes(w, FieldAt(s, i), m[i]) + MessageBytes(w, Drop(s, i + 1), m[i + 1..])
  {
    DropStep(s, i);
    assert m[i..][1..] == m[i + 1..];
  }

  lemma LoopEnds(w: Wire, s: Schema, m: seq<Slot>, p: Progress)
    requires |m| == Len(s) && OkSoFar(s, p, Len(s))
    ensures DecodeLoop(w, s, m, p, []) == Some((m, []))
  {
    ComparedIff(p.words, RequiredIndex(s, Len(s)));
  }

  /** Field by field: after the bytes of the message the loop goes on with the message in the struct. */
  lemma {:induction false} RoundTripFrom(w: Wire, s: Schema, m: seq<Slot>, i: nat, p: Progress, rest: Bytes) returns (p': Progress)
    requires SchemaOk(s) && TypedSlots(w, s, m) && |m| == Len(s) && Exclusive(s, m) && OkSoFar(s, p, i)
    requires forall j: nat :: j < Len(s) ==> ValuesDecode(w, FieldAt(s, j).kind)
    ensures OkSoFar(s, p', Len(s))
    ensures DecodeLoop(w, s, Mixed(s, m, i), p, MessageBytes(w, Drop(s, i), m[i..]) + rest) == DecodeLoop(w, s, m, p', rest)
    decreases Len(s) - i
  {
    if i == Len(s) {
      DropAll(s);
      assert Mixed(s, m, i) == m;
      assert [] + rest == rest;
      p' := p;
    } else {
      SchemaReachable(s, i);
      TypedAt(w, s, m, i);
      MessageBytesFrom(w, s, m, i);
      var slot, more := SlotBytes(w, FieldAt(s, i), m[i]), MessageBytes(w, Drop(s, i + 1), m[i + 1..]);
      assert slot + more + rest == slot + (more + rest);
      var next := StepSlot(w, s, m, i, p, more + rest);
      p' := RoundTripFrom(w, s, m, i + 1, next, rest);
    }
  }

  lemma MessageThen(w: Wire, s: Schema, m: seq<Slot>, rest: Bytes) returns (p: Progress)
    requires SchemaOk(s) && TypedSlots(w, s, m) && Exclusive(s, m)
    requires forall j: nat :: j < Len(s) ==> ValuesDecode(w, FieldAt(s, j).kind)
    ensures |m| == Len(s) && OkSoFar(s, p, Len(s))
    ensures Decode(w, s, MessageBytes(w, s, m) + rest) == DecodeLoop(w, s, m, p, rest)
  {
    TypedLength(w, s, m);
    assert Mixed(s, m, 0) == Defaults(s) && m[0..] == m;
    NothingWithin(0);
    p := RoundTripFrom(w, s, m, 0, Start(), rest);
  }

  /** Messages of the schema are decoded back. */
  lemma MessageRoundTrip(w: Wire, s: Schema, m: seq<Slot>)
    requires SchemaOk(s) && TypedSlots(w, s, m) && Exclusive(s, m)
    requires forall j: nat :: j < Len(s) ==> ValuesDecode(w, FieldAt(s, j).kind)
    ensures Decode(w, s, MessageBytes(w, s, m)) == Some((m, []))
  {
    var p := MessageThen(w, s, m, []);
    assert MessageBytes(w, s, m) + [] == MessageBytes(w, s, m);
    LoopEnds(w, s, m, p);
  }

  lemma SubRoundTrip(w: Wire, k: Kind, v: Value, rest: Bytes)
    requires k.Sub? && SchemaOk(k.schema) && Typed(w, k, v)
    requires forall j: nat :: j < Len(k.schema) ==> ValuesDecode(w, FieldAt(k.schema, j).kind)
    ensures DecodeValue(w, k, Default(k), ValueBytes(w, k, v) + rest) == Some((v, rest))
  {
    MessageRoundTrip(w, k.schema, v.slots);
    PrefixedRoundTrip(w, MessageBytes(w, k.schema, v.slots), rest);
  }

  /** By induction on nesting, values of every kind are decoded back. */
  lemma {:induction false} KindRoundTrip(w: Wire, k: Kind)
    requires k.Sub? ==> SchemaOk(k.schema)
    ensures ValuesDecode(w, k)
    decreases KindWeight(k)
  {
    if k.Sub? {
      forall j: nat | j < Len(k.schema) ensures ValuesDecode(w, FieldAt(k.schema, j).kind) {
        FieldLighter(k.schema, j);
        FieldAtOk(k.schema, j);
        KindRoundTrip(w, FieldAt(k.schema, j).kind);
      }
    }
    forall v: Value, rest: Bytes | Typed(w, k, v) ensures DecodeValue(w, k, Default(k), ValueBytes(w, k, v) + rest) == Some((v, rest)) {
      if k.Sub? {
        SubRoundTrip(w, k, v, rest);
      } else if Packable(k) {
        NumberRoundTrip(w, k, v, rest);
      } else {
        DataRoundTrip(w, k, v, rest);
      }
    }
  }

  /**
   * Round trip: for every well-formed schema and every in-range message,
   * decoding the encoding succeeds, consumes every byte, passes the checks for
   * required fields and fixed-count arrays, and returns the message.
   */
  lemma ProtobufRoundTrip(w: Wire, s: Schema, m: seq<Slot>)
    requires SchemaOk(s) && TypedSlots(w, s, m) && Exclusive(s, m)
    ensures Decode(w, s, MessageBytes(w, s, m)) == Some((m, []))
  {
    forall j: nat | j < Len(s) ensures ValuesDecode(w, FieldAt(s, j).kind) {
      FieldAtOk(s, j);
      KindRoundTrip(w, FieldAt(s, j).kind);
    }
    MessageRoundTrip(w, s, m);
  }

  /**
   * A message written with a zero byte behind it ends there: pb_decode leaves
   * what follows unread.
   */
  lemma NullTerminatedRoundTrip(w: Wire, s: Schema, m: seq<Slot>, rest: Bytes)
    requires SchemaOk(s) && TypedSlots(w, s, m) && Exclusive(s, m)
    ensures Decode(w, s, MessageBytes(w, s, m) + (w.put(0) + rest)) == Some((m, rest))
  {
    forall j: nat | j < Len(s) ensures ValuesDecode(w, FieldAt(s, j).kind) {
      FieldAtOk(s, j);
      KindRoundTrip(w, FieldAt(s, j).kind);
    }
    var p := MessageThen(w, s, m, w.put(0) + rest);
    ComparedIff(p.words, RequiredIndex(s, Len(s)));
    assert DecodeTag(w, w.put(0) + rest) == Stop(rest) && w.put(0) + rest != [];
  }
}
