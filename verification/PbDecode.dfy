/**
 * nanopb's decoder on static fields, and the round trip: decoding what the
 * encoder produced gives the message back and consumes every byte.
 * A stream is the bytes left in it; a substream is a prefix of them.
 */
module PbDecode {
  import opened InternalKeys
  import opened PbVarints
  import opened PbSchema
  import opened PbFields

  // ----- single values -----

  /** pb_read of a counted field: the bytes and what follows. */
  function Take(input: Bytes, count: nat): (r: Option<(Bytes, Bytes)>)
    ensures r.Some? ==> |r.value.1| <= |input|
  {
    if count > |input| then None else Some((input[..count], input[count..]))
  }

  /** pb_dec_varint: up to 32 bits the value is cast to int32 first; what does not fit the field is refused. */
  function ToSigned(width: nat, value: nat): Option<int>
    requires value < TWO_64
  {
    var low := value % TWO_32;
    var n := if width == 8 then Signed64(value) else if low < TWO_31 then low else low - TWO_32;
    if InSigned(width, n) then Some(n) else None
  }

  function ToNumber(k: Kind, value: nat): Option<int>
    requires value < TWO_64
  {
    match k
    case Signed(width) => ToSigned(width, value)
    case Unsigned(width) => if InUnsigned(width, value) then Some(value) else None
    case Zigzag(width) => var n := UnZigZag(value); if InSigned(width, n) then Some(n) else None
    case _ => None
  }

  function DecodeNumber(w: Wire, k: Kind, input: Bytes): (r: Option<(Value, Bytes)>)
    requires Packable(k)
    ensures r.Some? ==> |r.value.1| < |input|
  {
    if k.Fixed32? || k.Fixed64? then
      var width := if k.Fixed32? then 4 else 8;
      if |input| < width then None else Some((Number(w.getFixed(input[..width])), input[width..]))
    else
      var v := w.get64(input);
      if v.None? then None
      else
        var n := ToNumber(k, v.value.0);
        if n.None? then None else Some((Number(n.value), v.value.1))
  }

  /** pb_dec_bytes, pb_dec_string and pb_dec_fixed_length_bytes; an empty fixed-length string reads as zeros. */
  function DecodeData(w: Wire, k: Kind, input: Bytes): (r: Option<(Value, Bytes)>)
    requires k.Blob? || k.Text? || k.FixedBlob?
    ensures r.Some? ==> |r.value.1| < |input|
  {
    var size := w.get32(input);
    if size.None? then None
    else
      var n, rest := size.value.0, size.value.1;
      if k.FixedBlob? && n == 0 then Some((Data(seq(k.size, _ => 0)), rest))
      else if (k.Blob? && n > k.max) || (k.Text? && n + 1 > k.max) || (k.FixedBlob? && n != k.size) then None
      else
        var t := Take(rest, n);
        if t.None? then None else Some((Data(t.value.0), t.value.1))
  }

  // ----- fields -----

  /** pb_decode_tag: `Stop` is a zero tag, which ends a message early. */
  datatype Head = Head(tag: nat, wiretype: nat, rest: Bytes) | Stop(rest: Bytes) | Broken

  function DecodeTag(w: Wire, input: Bytes): (h: Head)
    ensures !h.Broken? ==> |h.rest| < |input|
  {
    var t := w.get32(input);
    if t.None? then Broken
    else if t.value.0 == 0 then Stop(t.value.1)
    else Head(t.value.0 / 8, t.value.0 % 8, t.value.1)
  }

  function SkipVarint(input: Bytes): (r: Option<Bytes>)
    ensures r.Some? ==> |r.value| < |input|
    decreases |input|
  {
    if input == [] then None else if input[0] < 128 then Some(input[1..]) else SkipVarint(input[1..])
  }

  /** pb_skip_field: unknown fields are passed over by wire type. */
  function SkipField(w: Wire, wiretype: nat, input: Bytes): (r: Option<Bytes>)
    ensures r.Some? ==> |r.value| <= |input|
  {
    if wiretype == 0 then SkipVarint(input)
    else if wiretype == 1 then (if |input| < 8 then None else Some(input[8..]))
    else if wiretype == 5 then (if |input| < 4 then None else Some(input[4..]))
    else if wiretype == 2 then
      var size := w.get32(input);
      if size.None? || size.value.0 > |size.value.1| then None else Some(size.value.1[size.value.0..])
    else None
  }

  /**
   * The state of the loop: fields_seen, the one fixed-count array being received
   * with how much of it has come, and the field iterator.
   */
  datatype Progress = Progress(words: Words, filling: Option<nat>, count: nat, iter: FieldIter)

  /** Where the loop starts. */
  function Start(): Progress {
    Progress([0, 0], None, 0, FieldIter(0, 0))
  }

  function Default(k: Kind): Value
    decreases k, 0
  {
    match k
    case Sub(schema) => Message(Defaults(schema))
    case FixedBlob(size) => Data(seq(size, _ => 0))
    case Blob(_) => Data([])
    case Text(_) => Data([])
    case _ => Number(0)
  }

  /** pb_message_set_to_defaults. */
  function Defaults(s: Schema): (r: seq<Slot>)
    ensures |r| == Len(s)
    decreases s, 0
  {
    if s.End? then [] else [DefaultSlot(s.first)] + Defaults(s.rest)
  }

  function DefaultSlot(f: Field): Slot
    decreases f, 0
  {
    match f.rule
    case Required => One(Default(f.kind))
    case Optional => Maybe(None)
    case OneOf(_) => Maybe(None)
    case Repeated(_) => Many([])
    case FixedCount(count) => var d := Default(f.kind); Many(seq(count, _ => d))
  }

  /** What a submessage is decoded into: array entries and oneof members start afresh. */
  function Target(f: Field, s: Slot): Value {
    match s
    case One(v) => v
    case Maybe(o) => if o.Some? && f.rule.Optional? then o.value else Default(f.kind)
    case Many(_) => Default(f.kind)
  }

  /** Setting one member of a oneof unsets the others. */
  function Unset(s: Schema, slots: seq<Slot>, group: nat): (r: seq<Slot>)
    requires |slots| == Len(s)
    ensures |r| == |slots|
    ensures forall i :: 0 <= i < |slots| ==> r[i] == if FieldAt(s, i).rule == OneOf(group) then Maybe(None) else slots[i]
  {
    if s.End? then []
    else [if s.first.rule == OneOf(group) then Maybe(None) else slots[0]] + Unset(s.rest, slots[1..], group)
  }

  /** Is there room for one more value of field i? */
  predicate HasRoom(f: Field, s: Slot, count: nat) {
    match f.rule
    case Repeated(max) => s.Many? && |s.values| < max
    case FixedCount(n) => s.Many? && count < n && count < |s.values|
    case _ => true
  }

  /** Storing a decoded value in its slot. */
  function Stored(s: Schema, slots: seq<Slot>, i: nat, count: nat, v: Value): (r: seq<Slot>)
    requires |slots| == Len(s) && i < Len(s) && HasRoom(FieldAt(s, i), slots[i], count)
    ensures |r| == |slots|
  {
    match FieldAt(s, i).rule
    case Required => slots[i := One(v)]
    case Optional => slots[i := Maybe(Some(v))]
    case OneOf(group) => Unset(s, slots, group)[i := Maybe(Some(v))]
    case Repeated(_) => slots[i := Many(slots[i].values + [v])]
    case FixedCount(_) => slots[i := Many(slots[i].values[count := v])]
  }

  /**
   * Before the value of the field the iterator has come to: a new fixed-count
   * array may start only when the last one is complete; a required field is marked.
   */
  function Entered(s: Schema, it: FieldIter, p: Progress): Option<Progress>
    requires it.pos < Len(s)
  {
    var f := FieldAt(s, it.pos);
    var here := p.(iter := it, words := Noted(s, it, p.words));
    if f.rule.FixedCount? && p.filling != Some(it.pos) then
      if ArrayOpen(s, p) then None else Some(here.(filling := Some(it.pos), count := 0))
    else Some(here)
  }

  predicate ArrayOpen(s: Schema, p: Progress) {
    p.filling.Some? && p.filling.value < Len(s) && FieldAt(s, p.filling.value).rule.FixedCount?
    && p.count != FieldAt(s, p.filling.value).rule.count
  }

  /** The elements of a packed array, stored one by one while there is room; nothing may be left over. */
  function DecodePacked(w: Wire, s: Schema, i: nat, slots: seq<Slot>, count: nat, input: Bytes): (r: Option<(seq<Slot>, nat)>)
    requires |slots| == Len(s) && i < Len(s) && Packable(FieldAt(s, i).kind)
    ensures r.Some? ==> |r.value.0| == |slots|
    decreases |input|
  {
    if input == [] then Some((slots, count))
    else if !HasRoom(FieldAt(s, i), slots[i], count) then None
    else
      var v := DecodeNumber(w, FieldAt(s, i).kind, input);
      if v.None? then None
      else DecodePacked(w, s, i, Stored(s, slots, i, count, v.value.0), count + 1, v.value.1)
  }

  /** The checks after the loop: no array half received, no required field missing. */
  predicate Complete(s: Schema, p: Progress) {
    !ArrayOpen(s, p) && Compared(p.words, RequiredIndex(s, Len(s)))
  }

  predicate IsPacked(f: Field, wiretype: nat) {
    wiretype == 2 && Packable(f.kind) && (f.rule.Repeated? || f.rule.FixedCount?)
  }

  /** One value of one field; submessages recur. */
  function DecodeValue(w: Wire, k: Kind, target: Value, input: Bytes): (r: Option<(Value, Bytes)>)
    ensures r.Some? ==> |r.value.1| < |input|
    decreases KindWeight(k), 0, |input|
  {
    if Packable(k) then DecodeNumber(w, k, input)
    else if !k.Sub? then DecodeData(w, k, input)
    else
      var size := w.get32(input);
      if size.None? || size.value.0 > |size.value.1| || !target.Message? || |target.slots| != Len(k.schema) then None
      else
        var m := DecodeLoop(w, k.schema, target.slots, Start(), size.value.1[..size.value.0]);
        if m.None? then None else Some((Message(m.value.0), size.value.1[size.value.0..]))
  }

  /** One field that was found: the struct, the progress and the stream after it. */
  function FieldRound(w: Wire, s: Schema, i: nat, wiretype: nat, slots: seq<Slot>, q: Progress, stream: Bytes)
    : (r: Option<(seq<Slot>, Progress, Bytes)>)
    requires |slots| == Len(s) && i < Len(s)
    ensures r.Some? ==> |r.value.0| == |slots| && |r.value.2| < |stream|
    ensures r.Some? ==> r.value.1.words == q.words && r.value.1.iter == q.iter
    decreases Weight(s), 0, |stream|
  {
    var f := FieldAt(s, i);
    if IsPacked(f, wiretype) then
      var size := w.get32(stream);
      if size.None? || size.value.0 > |size.value.1| then None
      else
        var items := DecodePacked(w, s, i, slots, q.count, size.value.1[..size.value.0]);
        if items.None? then None else Some((items.value.0, Counted(f, q, items.value.1), size.value.1[size.value.0..]))
    else if !HasRoom(f, slots[i], q.count) then None
    else
      FieldLighter(s, i);
      var v := DecodeValue(w, f.kind, Target(f, slots[i]), stream);
      if v.None? then None
      else Some((Stored(s, slots, i, q.count, v.value.0), Counted(f, q, q.count + 1), v.value.1))
  }

  /**
   * pb_decode_noinit: tag by tag until the stream is empty or a zero tag comes;
   * the struct and what is left unread. An empty message has only the terminator,
   * which tag 0 matches and which cannot be decoded for lack of a size.
   */
  function DecodeLoop(w: Wire, s: Schema, slots: seq<Slot>, p: Progress, input: Bytes): (r: Option<(seq<Slot>, Bytes)>)
    requires |slots| == Len(s)
    ensures r.Some? ==> |r.value.0| == |slots|
    decreases Weight(s), 1, |input|
  {
    if input == [] then (if Complete(s, p) then Some((slots, [])) else None)
    else
      match DecodeTag(w, input)
      case Broken => None
      case Stop(unread) => if Complete(s, p) then Some((slots, unread)) else None
      case Head(tag, wiretype, rest) =>
        var found := FindFrom(s, p.iter.pos, tag);
        if s.End? && tag == 0 then None
        else if found.None? then
          var skipped := SkipField(w, wiretype, rest);
          if skipped.None? then None else DecodeLoop(w, s, slots, p, skipped.value)
        else
          var i := found.value;
          var q := Entered(s, At(s, i), p);
          if q.None? then None
          else
            var round := FieldRound(w, s, i, wiretype, slots, q.value, rest);
            if round.None? then None else DecodeLoop(w, s, round.value.0, round.value.1, round.value.2)
  }

  /** Only a fixed-count array moves the count. */
  function Counted(f: Field, p: Progress, count: nat): Progress {
    if f.rule.FixedCount? then p.(count := count) else p
  }

  /** pb_decode. */
  function Decode(w: Wire, s: Schema, input: Bytes): Option<(seq<Slot>, Bytes)> {
    DecodeLoop(w, s, Defaults(s), Start(), input)
  }

  // ----- required fields -----

  /** The fields a run of the loop comes to, in order. */
  ghost function FieldsMet(w: Wire, s: Schema, slots: seq<Slot>, p: Progress, input: Bytes): (met: seq<nat>)
    requires |slots| == Len(s)
    ensures Positions(s, met)
    decreases |input|
  {
    if input == [] then []
    else
      match DecodeTag(w, input)
      case Broken => []
      case Stop(_) => []
      case Head(tag, wiretype, rest) =>
        var found := FindFrom(s, p.iter.pos, tag);
        if found.None? then
          var skipped := SkipField(w, wiretype, rest);
          if skipped.None? then [] else FieldsMet(w, s, slots, p, skipped.value)
        else
          var q := Entered(s, At(s, found.value), p);
          var round := if q.None? then None else FieldRound(w, s, found.value, wiretype, slots, q.value, rest);
          if round.None? then [found.value]
          else [found.value] + FieldsMet(w, s, round.value.0, round.value.1, round.value.2)
  }

  /** If the loop succeeds from here, the fields met before and from here on include every required one. */
  ghost predicate Meets(w: Wire, s: Schema, slots: seq<Slot>, p: Progress, input: Bytes, before: seq<nat>) {
    |slots| == Len(s) && DecodeLoop(w, s, slots, p, input).Some? ==> RequiredMet(s, before + FieldsMet(w, s, slots, p, input))
  }

  lemma {:induction false} LoopMeetsRequired(w: Wire, s: Schema, slots: seq<Slot>, p: Progress, input: Bytes, before: seq<nat>)
    requires |slots| == Len(s) && Positions(s, before) && p.words == NotedAll(s, before)
    ensures Meets(w, s, slots, p, input, before)
    decreases |input|
  {
    var h := DecodeTag(w, input);
    if input == [] || !h.Head? {
      LoopMeetsEnd(w, s, slots, p, input, before);
    } else {
      var found := FindFrom(s, p.iter.pos, h.tag);
      if found.None? {
        SkipRound(w, s, slots, p, input, h);
        var skipped := SkipField(w, h.wiretype, h.rest);
        if skipped.Some? {
          LoopMeetsRequired(w, s, slots, p, skipped.value, before);
        }
      } else {
        var q := Entered(s, At(s, found.value), p);
        if q.Some? {
          var round := FieldRound(w, s, found.value, h.wiretype, slots, q.value, h.rest);
          if round.Some? {
            NotedNext(s, found.value, p, q.value, before);
            LoopMeetsRequired(w, s, round.value.0, round.value.1, round.value.2, before + [found.value]);
          }
          RoundMeets(w, s, slots, p, input, h, found.value, q.value, before);
        }
      }
    }
  }

  lemma RoundMeets(w: Wire, s: Schema, slots: seq<Slot>, p: Progress, input: Bytes, h: Head, i: nat, q: Progress, before: seq<nat>)
    requires |slots| == Len(s) && input != [] && DecodeTag(w, input) == h && h.Head?
    requires FindFrom(s, p.iter.pos, h.tag) == Some(i) && Entered(s, At(s, i), p) == Some(q)
    requires var round := FieldRound(w, s, i, h.wiretype, slots, q, h.rest);
      round.Some? ==> Meets(w, s, round.value.0, round.value.1, round.value.2, before + [i])
    ensures Meets(w, s, slots, p, input, before)
  {
    LoopRound(w, s, slots, p, input, h, i, q);
    MetRound(w, s, slots, p, input, h, i, q);
    var round := FieldRound(w, s, i, h.wiretype, slots, q, h.rest);
    if round.Some? {
      var rest := FieldsMet(w, s, round.value.0, round.value.1, round.value.2);
      assert before + [i] + rest == before + ([i] + rest);
    }
  }

  lemma LoopMeetsEnd(w: Wire, s: Schema, slots: seq<Slot>, p: Progress, input: Bytes, before: seq<nat>)
    requires |slots| == Len(s) && Positions(s, before) && p.words == NotedAll(s, before)
    requires input == [] || !DecodeTag(w, input).Head?
    ensures Meets(w, s, slots, p, input, before)
  {
    CheckPassesIff(s, before);
    assert before + [] == before;
  }

  lemma SkipRound(w: Wire, s: Schema, slots: seq<Slot>, p: Progress, input: Bytes, h: Head)
    requires |slots| == Len(s) && input != [] && DecodeTag(w, input) == h && h.Head? && FindFrom(s, p.iter.pos, h.tag) == None
    ensures var skipped := SkipField(w, h.wiretype, h.rest);
      && FieldsMet(w, s, slots, p, input) == (if skipped.None? then [] else FieldsMet(w, s, slots, p, skipped.value))
      && (DecodeLoop(w, s, slots, p, input).Some? ==> skipped.Some? && DecodeLoop(w, s, slots, p, skipped.value).Some?)
  {
  }

  lemma NotedNext(s: Schema, i: nat, p: Progress, q: Progress, before: seq<nat>)
    requires i < Len(s) && Positions(s, before) && p.words == NotedAll(s, before) && Entered(s, At(s, i), p) == Some(q)
    ensures Positions(s, before + [i]) && q.words == NotedAll(s, before + [i])
  {
    assert (before + [i])[..|before|] == before;
  }

  lemma MetRound(w: Wire, s: Schema, slots: seq<Slot>, p: Progress, input: Bytes, h: Head, i: nat, q: Progress)
    requires |slots| == Len(s) && input != [] && DecodeTag(w, input) == h && h.Head?
    requires FindFrom(s, p.iter.pos, h.tag) == Some(i) && Entered(s, At(s, i), p) == Some(q)
    ensures var round := FieldRound(w, s, i, h.wiretype, slots, q, h.rest);
      FieldsMet(w, s, slots, p, input)
        == [i] + if round.None? then [] else FieldsMet(w, s, round.value.0, round.value.1, round.value.2)
  {
  }

  /** What is decoded had every required field, up to the sixty-fourth, somewhere in the stream. */
  lemma DecodedHasRequired(w: Wire, s: Schema, input: Bytes)
    requires Decode(w, s, input).Some?
    ensures RequiredMet(s, FieldsMet(w, s, Defaults(s), Start(), input))
  {
    LoopMeetsRequired(w, s, Defaults(s), Start(), input, []);
    assert [] + FieldsMet(w, s, Defaults(s), Start(), input) == FieldsMet(w, s, Defaults(s), Start(), input);
  }

  // ----- the loops -----

  /** pb_skip_varint. */
  method SkipVarintBytes(stream: Bytes) returns (r: Option<Bytes>)
    ensures r == SkipVarint(stream)
  {
    var input := stream;
    while input != [] && input[0] >= 128
      invariant SkipVarint(stream) == SkipVarint(input)
      decreases |input|
    {
      input := input[1..];
    }
    return if input == [] then None else Some(input[1..]);
  }

  /** pb_skip_field's cases. */
  method Skip(w: Wire, wiretype: nat, stream: Bytes) returns (r: Option<Bytes>)
    ensures r == SkipField(w, wiretype, stream)
  {
    if wiretype == 0 {
      r := SkipVarintBytes(stream);
    } else {
      r := SkipField(w, wiretype, stream);
    }
  }

  lemma PackedRound(w: Wire, s: Schema, i: nat, slots: seq<Slot>, count: nat, input: Bytes)
    requires |slots| == Len(s) && i < Len(s) && Packable(FieldAt(s, i).kind) && input != [] && HasRoom(FieldAt(s, i), slots[i], count)
    ensures var v := DecodeNumber(w, FieldAt(s, i).kind, input);
      DecodePacked(w, s, i, slots, count, input)
        == if v.None? then None else DecodePacked(w, s, i, Stored(s, slots, i, count, v.value.0), count + 1, v.value.1)
  {
  }

  lemma PackedEnd(w: Wire, s: Schema, i: nat, slots: seq<Slot>, count: nat, input: Bytes)
    requires |slots| == Len(s) && i < Len(s) && Packable(FieldAt(s, i).kind)
    requires input == [] || !HasRoom(FieldAt(s, i), slots[i], count)
    ensures DecodePacked(w, s, i, slots, count, input) == if input == [] then Some((slots, count)) else None
  {
  }

  /** One element of a packed array. */
  method ReadItem(w: Wire, s: Schema, i: nat, slots: seq<Slot>, count: nat, input: Bytes) returns (r: Option<(seq<Slot>, Bytes)>)
    requires |slots| == Len(s) && i < Len(s) && Packable(FieldAt(s, i).kind) && input != [] && HasRoom(FieldAt(s, i), slots[i], count)
    ensures r.None? ==> DecodePacked(w, s, i, slots, count, input) == None
    ensures r.Some? ==> |r.value.0| == Len(s) && |r.value.1| < |input|
    ensures r.Some? ==> DecodePacked(w, s, i, slots, count, input) == DecodePacked(w, s, i, r.value.0, count + 1, r.value.1)
  {
    PackedRound(w, s, i, slots, count, input);
    var v := DecodeNumber(w, FieldAt(s, i).kind, input);
    r := if v.None? then None else Some((Stored(s, slots, i, count, v.value.0), v.value.1));
  }

  /** The loop over a packed array in decode_static_field. */
  method ReadPacked(w: Wire, s: Schema, i: nat, dest: seq<Slot>, start: nat, substream: Bytes) returns (r: Option<(seq<Slot>, nat)>)
    requires |dest| == Len(s) && i < Len(s) && Packable(FieldAt(s, i).kind)
    ensures r == DecodePacked(w, s, i, dest, start, substream)
  {
    var slots: seq<Slot>, count: nat, input: Bytes := dest, start, substream;
    ghost var whole := DecodePacked(w, s, i, dest, start, substream);
    while input != [] && HasRoom(FieldAt(s, i), slots[i], count)
      invariant |slots| == Len(s) && whole == DecodePacked(w, s, i, slots, count, input)
      decreases |input|
    {
      var item := ReadItem(w, s, i, slots, count, input);
      if item.None? {
        return None;
      }
      slots := item.value.0;
      count := count + 1;
      input := item.value.1;
    }
    PackedEnd(w, s, i, slots, count, input);
    return if input == [] then Some((slots, count)) else None;
  }

  /** pb_make_string_substream: the substream and what follows it. */
  method MakeSubstream(w: Wire, stream: Bytes) returns (r: Option<(Bytes, Bytes)>)
    ensures var size := w.get32(stream);
      r == if size.None? || size.value.0 > |size.value.1| then None
           else Some((size.value.1[..size.value.0], size.value.1[size.value.0..]))
  {
    var size := w.get32(stream);
    if size.None? || size.value.0 > |size.value.1| {
      return None;
    }
    return Some((size.value.1[..size.value.0], size.value.1[size.value.0..]));
  }

  /** The decoder function of a field, on one value. */
  method ReadValue(w: Wire, k: Kind, target: Value, stream: Bytes) returns (r: Option<(Value, Bytes)>)
    ensures r == DecodeValue(w, k, target, stream)
    decreases KindWeight(k), 0, 0
  {
    if Packable(k) {
      return DecodeNumber(w, k, stream);
    }
    if !k.Sub? {
      return DecodeData(w, k, stream);
    }
    var sub := MakeSubstream(w, stream);
    if sub.None? || !target.Message? || |target.slots| != Len(k.schema) {
      return None;
    }
    var m := ReadMessage(w, k.schema, target.slots, sub.value.0);
    return if m.None? then None else Some((Message(m.value.0), sub.value.1));
  }

  /** One round of pb_decode_noinit for a field that was found: the struct, the progress and the stream after it. */
  method ReadField(w: Wire, s: Schema, i: nat, wiretype: nat, slots: seq<Slot>, q: Progress, stream: Bytes)
    returns (r: Option<(seq<Slot>, Progress, Bytes)>)
    requires |slots| == Len(s) && i < Len(s)
    ensures r == FieldRound(w, s, i, wiretype, slots, q, stream)
    decreases Weight(s), 0, 0
  {
    var f := FieldAt(s, i);
    if IsPacked(f, wiretype) {
      var sub := MakeSubstream(w, stream);
      if sub.None? {
        return None;
      }
      var items := ReadPacked(w, s, i, slots, q.count, sub.value.0);
      return if items.None? then None else Some((items.value.0, Counted(f, q, items.value.1), sub.value.1));
    }
    if !HasRoom(f, slots[i], q.count) {
      return None;
    }
    FieldLighter(s, i);
    var v := ReadValue(w, f.kind, Target(f, slots[i]), stream);
    return if v.None? then None
           else Some((Stored(s, slots, i, q.count, v.value.0), Counted(f, q, q.count + 1), v.value.1));
  }

  lemma LoopRound(w: Wire, s: Schema, slots: seq<Slot>, p: Progress, input: Bytes, h: Head, i: nat, q: Progress)
    requires |slots| == Len(s) && input != [] && DecodeTag(w, input) == h && h.Head?
    requires FindFrom(s, p.iter.pos, h.tag) == Some(i) && Entered(s, At(s, i), p) == Some(q)
    ensures var round := FieldRound(w, s, i, h.wiretype, slots, q, h.rest);
      DecodeLoop(w, s, slots, p, input)
        == if round.None? then None else DecodeLoop(w, s, round.value.0, round.value.1, round.value.2)
  {
  }

  /** The checks after the loop. */
  method Check(s: Schema, p: Progress) returns (ok: bool)
    requires ValidIter(s, p.iter)
    ensures ok == Complete(s, p)
  {
    if ArrayOpen(s, p) {
      return false;
    }
    var count := CountRequired(s, p.iter);
    ok := CompareWords(p.words, count);
  }

  /** pb_decode_noinit. */
  method ReadMessage(w: Wire, s: Schema, dest: seq<Slot>, stream: Bytes) returns (r: Option<(seq<Slot>, Bytes)>)
    requires |dest| == Len(s)
    ensures r == DecodeLoop(w, s, dest, Start(), stream)
    decreases Weight(s), 1, 0
  {
    var begin, _ := Begin(s);
    var slots, p, input := dest, Progress([0, 0], None, 0, begin), stream;
    while input != []
      invariant |slots| == Len(s) && ValidIter(s, p.iter)
      invariant DecodeLoop(w, s, dest, Start(), stream) == DecodeLoop(w, s, slots, p, input)
      decreases |input|
    {
      var h := DecodeTag(w, input);
      if h.Broken? {
        return None;
      }
      if h.Stop? {
        var ok := Check(s, p);
        return if ok then Some((slots, h.rest)) else None;
      }
      var it, found := IterFind(s, p.iter, h.tag);
      if !found {
        var skipped := Skip(w, h.wiretype, h.rest);
        if skipped.None? {
          return None;
        }
        input := skipped.value;
      } else if s.End? {
        return None;
      } else {
        var q := Entered(s, it, p);
        if q.None? {
          return None;
        }
        LoopRound(w, s, slots, p, input, h, it.pos, q.value);
        var round := ReadField(w, s, it.pos, h.wiretype, slots, q.value, h.rest);
        if round.None? {
          return None;
        }
        slots, p, input := round.value.0, round.value.1, round.value.2;
      }
    }
    var ok := Check(s, p);
    return if ok then Some((slots, [])) else None;
  }

  /** pb_decode: defaults first. */
  method DecodeMessage(w: Wire, s: Schema, stream: Bytes) returns (r: Option<(seq<Slot>, Bytes)>)
    ensures r == Decode(w, s, stream)
  {
    r := ReadMessage(w, s, Defaults(s), stream);
  }
}
