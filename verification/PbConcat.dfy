/**
 * Streams joined end to end: the decoder takes the second where it left the
 * first, so that a later value of a field replaces an earlier one, and a stream
 * may end with a zero tag.
 */
module PbConcat {
  import opened InternalKeys
  import opened Coding
  import opened PbVarints
  import opened PbSchema
  import opened PbFields
  import opened PbDecode
  import opened PbRoundTrip

  /** What follows a varint does not change how it is read. */
  ghost predicate PrefixStable(w: Wire) {
    && (forall b: Bytes, x: Bytes | w.get64(b).Some? :: w.get64(b + x) == Some((w.get64(b).value.0, w.get64(b).value.1 + x)))
    && (forall b: Bytes, x: Bytes | w.get32(b).Some? :: w.get32(b + x) == Some((w.get32(b).value.0, w.get32(b).value.1 + x)))
  }

  lemma {:induction false} Prefix64(b: Bytes, x: Bytes, i: nat, result: nat)
    requires Decode64From(b, i, result).Some?
    ensures Decode64From(b + x, i, result) == Some((Decode64From(b, i, result).value.0, Decode64From(b, i, result).value.1 + x))
    decreases |b|
  {
    assert (b + x)[1..] == b[1..] + x;
    if b[0] >= 128 {
      Prefix64(b[1..], x, i + 1, (result + Placed(b[0] as nat % 128, i)) % TWO_64);
    }
  }

  lemma {:induction false} Prefix32(b: Bytes, x: Bytes, i: nat, result: nat)
    requires Decode32Rest(b, i, result).Some?
    ensures Decode32Rest(b + x, i, result) == Some((Decode32Rest(b, i, result).value.0, Decode32Rest(b, i, result).value.1 + x))
    decreases |b|
  {
    assert (b + x)[1..] == b[1..] + x;
    if b[0] >= 128 {
      Prefix32(b[1..], x, i + 1, if 7 * i >= 32 then result else (result + Placed(b[0] as nat % 128, i)) % TWO_32);
    }
  }

  lemma NanopbPrefixStable()
    ensures PrefixStable(NanopbWire())
  {
    var w := NanopbWire();
    forall b: Bytes, x: Bytes | w.get64(b).Some? ensures w.get64(b + x) == Some((w.get64(b).value.0, w.get64(b).value.1 + x)) {
      Prefix64(b, x, 0, 0);
    }
    forall b: Bytes, x: Bytes | w.get32(b).Some? ensures w.get32(b + x) == Some((w.get32(b).value.0, w.get32(b).value.1 + x)) {
      Decode32IsRest(b);
      Decode32IsRest(b + x);
      Prefix32(b, x, 0, 0);
    }
  }

  // ----- one record with more behind it -----

  lemma TakeJoin(a: Bytes, x: Bytes, n: nat)
    requires n <= |a|
    ensures (a + x)[..n] == a[..n] && (a + x)[n..] == a[n..] + x
  {
  }

  lemma NumberJoin(w: Wire, k: Kind, a: Bytes, x: Bytes)
    requires PrefixStable(w) && Packable(k) && DecodeNumber(w, k, a).Some?
    ensures DecodeNumber(w, k, a + x) == Some((DecodeNumber(w, k, a).value.0, DecodeNumber(w, k, a).value.1 + x))
  {
    if k.Fixed32? || k.Fixed64? {
      TakeJoin(a, x, if k.Fixed32? then 4 else 8);
    }
  }

  lemma DataJoin(w: Wire, k: Kind, a: Bytes, x: Bytes)
    requires PrefixStable(w) && (k.Blob? || k.Text? || k.FixedBlob?) && DecodeData(w, k, a).Some?
    ensures DecodeData(w, k, a + x) == Some((DecodeData(w, k, a).value.0, DecodeData(w, k, a).value.1 + x))
  {
    var size := w.get32(a).value;
    if size.0 <= |size.1| {
      TakeJoin(size.1, x, size.0);
    }
  }

  lemma {:induction false} SkipVarintJoin(a: Bytes, x: Bytes)
    requires SkipVarint(a).Some?
    ensures SkipVarint(a + x) == Some(SkipVarint(a).value + x)
    decreases |a|
  {
    assert (a + x)[1..] == a[1..] + x;
    if a[0] >= 128 {
      SkipVarintJoin(a[1..], x);
    }
  }

  lemma SkipJoin(w: Wire, wiretype: nat, a: Bytes, x: Bytes)
    requires PrefixStable(w) && SkipField(w, wiretype, a).Some?
    ensures SkipField(w, wiretype, a + x) == Some(SkipField(w, wiretype, a).value + x)
  {
    if wiretype == 0 {
      SkipVarintJoin(a, x);
    } else if wiretype == 1 {
      TakeJoin(a, x, 8);
    } else if wiretype == 5 {
      TakeJoin(a, x, 4);
    } else if wiretype == 2 {
      var size := w.get32(a).value;
      TakeJoin(size.1, x, size.0);
    }
  }

  lemma ValueJoin(w: Wire, k: Kind, target: Value, a: Bytes, x: Bytes)
    requires PrefixStable(w) && DecodeValue(w, k, target, a).Some?
    ensures DecodeValue(w, k, target, a + x) == Some((DecodeValue(w, k, target, a).value.0, DecodeValue(w, k, target, a).value.1 + x))
  {
    if Packable(k) {
      NumberJoin(w, k, a, x);
    } else if !k.Sub? {
      DataJoin(w, k, a, x);
    } else {
      var size := w.get32(a).value;
      TakeJoin(size.1, x, size.0);
    }
  }

  lemma RoundJoin(w: Wire, s: Schema, i: nat, wiretype: nat, slots: seq<Slot>, q: Progress, a: Bytes, x: Bytes)
    requires PrefixStable(w) && |slots| == Len(s) && i < Len(s) && FieldRound(w, s, i, wiretype, slots, q, a).Some?
    ensures var r := FieldRound(w, s, i, wiretype, slots, q, a).value;
      FieldRound(w, s, i, wiretype, slots, q, a + x) == Some((r.0, r.1, r.2 + x))
  {
    var f := FieldAt(s, i);
    if IsPacked(f, wiretype) {
      var size := w.get32(a).value;
      TakeJoin(size.1, x, size.0);
    } else {
      ValueJoin(w, f.kind, Target(f, slots[i]), a, x);
    }
  }

  lemma TagJoin(w: Wire, a: Bytes, x: Bytes)
    requires PrefixStable(w) && DecodeTag(w, a).Head?
    ensures DecodeTag(w, a + x) == DecodeTag(w, a).(rest := DecodeTag(w, a).rest + x)
  {
  }

  // ----- the loop on a stream with more behind it -----

  /** Where the loop stands when the stream is used up without a zero tag. */
  function LoopState(w: Wire, s: Schema, slots: seq<Slot>, p: Progress, input: Bytes): (r: Option<(seq<Slot>, Progress)>)
    requires |slots| == Len(s)
    ensures r.Some? ==> |r.value.0| == |slots|
    decreases |input|
  {
    if input == [] then Some((slots, p))
    else
      var h := DecodeTag(w, input);
      if !h.Head? || (s.End? && h.tag == 0) then None
      else
        var found := FindFrom(s, p.iter.pos, h.tag);
        if found.None? then
          var skipped := SkipField(w, h.wiretype, h.rest);
          if skipped.None? then None else LoopState(w, s, slots, p, skipped.value)
        else
          var q := Entered(s, At(s, found.value), p);
          if q.None? then None
          else
            var round := FieldRound(w, s, found.value, h.wiretype, slots, q.value, h.rest);
            if round.None? then None else LoopState(w, s, round.value.0, round.value.1, round.value.2)
  }

  /** The loop on two streams end to end is the loop on the second from where the first left it. */
  lemma {:induction false} LoopJoins(w: Wire, s: Schema, slots: seq<Slot>, p: Progress, a: Bytes, b: Bytes)
    requires PrefixStable(w) && |slots| == Len(s) && LoopState(w, s, slots, p, a).Some?
    ensures var (x, q) := LoopState(w, s, slots, p, a).value; DecodeLoop(w, s, slots, p, a + b) == DecodeLoop(w, s, x, q, b)
    decreases |a|
  {
    if a == [] {
      assert a + b == b;
    } else {
      var h := DecodeTag(w, a);
      TagJoin(w, a, b);
      var found := FindFrom(s, p.iter.pos, h.tag);
      if found.None? {
        SkipJoin(w, h.wiretype, h.rest, b);
        LoopJoins(w, s, slots, p, SkipField(w, h.wiretype, h.rest).value, b);
      } else {
        var q := Entered(s, At(s, found.value), p).value;
        var round := FieldRound(w, s, found.value, h.wiretype, slots, q, h.rest).value;
        RoundJoin(w, s, found.value, h.wiretype, slots, q, h.rest, b);
        LoopRound(w, s, slots, p, a + b, DecodeTag(w, a + b), found.value, q);
        LoopJoins(w, s, round.0, round.1, round.2, b);
      }
    }
  }

  /** The words record exactly the fields met. */
  lemma {:induction false} StateWords(w: Wire, s: Schema, slots: seq<Slot>, p: Progress, a: Bytes, before: seq<nat>) returns (met: seq<nat>)
    requires |slots| == Len(s) && LoopState(w, s, slots, p, a).Some?
    requires Positions(s, before) && p.words == NotedAll(s, before)
    ensures Positions(s, met) && LoopState(w, s, slots, p, a).value.1.words == NotedAll(s, met)
    decreases |a|
  {
    if a == [] {
      met := before;
    } else {
      var h := DecodeTag(w, a);
      var found := FindFrom(s, p.iter.pos, h.tag);
      if found.None? {
        met := StateWords(w, s, slots, p, SkipField(w, h.wiretype, h.rest).value, before);
      } else {
        var q := Entered(s, At(s, found.value), p).value;
        var round := FieldRound(w, s, found.value, h.wiretype, slots, q, h.rest).value;
        NotedNext(s, found.value, p, q, before);
        met := StateWords(w, s, round.0, round.1, round.2, before + [found.value]);
      }
    }
  }

  /** Meeting one more field keeps a passed check passed. */
  lemma StillCompared(s: Schema, met: seq<nat>, i: nat)
    requires Positions(s, met) && i < Len(s) && Compared(NotedAll(s, met), RequiredIndex(s, Len(s)))
    ensures Compared(Noted(s, At(s, i), NotedAll(s, met)), RequiredIndex(s, Len(s)))
  {
    CheckPassesIff(s, met);
    var more := met + [i];
    assert more[..|met|] == met;
    CheckPassesIff(s, more);
    assert RequiredMet(s, more);
  }

  /** A struct with one field set: the value replaces what was there, and the other members of its oneof are unset. */
  ghost predicate Replaced(s: Schema, x: seq<Slot>, i: nat, v: Value, r: seq<Slot>)
    requires i < Len(s) && |x| == Len(s)
  {
    && |r| == Len(s) && r[i] == (if FieldAt(s, i).rule.Required? then One(v) else Maybe(Some(v)))
    && forall j :: 0 <= j < Len(s) && j != i ==>
         r[j] == if FieldAt(s, i).rule.OneOf? && FieldAt(s, j).rule == FieldAt(s, i).rule then Maybe(None) else x[j]
  }

  /**
   * The last value wins: a stream that decodes, followed by one more record of a
   * field that is no array and no submessage, decodes to the same struct with
   * that field replaced.
   */
  lemma LastValueWins(w: Wire, s: Schema, a: Bytes, i: nat, v: Value) returns (r: seq<Slot>)
    requires PrefixStable(w) && SchemaOk(s) && i < Len(s)
    requires !IsArray(FieldAt(s, i)) && !FieldAt(s, i).kind.Sub? && Typed(w, FieldAt(s, i).kind, v)
    requires LoopState(w, s, Defaults(s), Start(), a).Some? && Complete(s, LoopState(w, s, Defaults(s), Start(), a).value.1)
    ensures var (x, q) := LoopState(w, s, Defaults(s), Start(), a).value;
      && Decode(w, s, a) == Some((x, [])) && Replaced(s, x, i, v, r)
      && Decode(w, s, a + TaggedBytes(w, FieldAt(s, i), v)) == Some((r, []))
  {
    var (x, q) := LoopState(w, s, Defaults(s), Start(), a).value;
    LoopJoins(w, s, Defaults(s), Start(), a, []);
    assert a + [] == a;
    LoopJoins(w, s, Defaults(s), Start(), a, TaggedBytes(w, FieldAt(s, i), v));
    var met := StateWords(w, s, Defaults(s), Start(), a, []);
    StillCompared(s, met, i);
    r := Stored(s, x, i, q.count, v);
    LastRecord(w, s, x, q, i, v);
  }

  lemma LastRecord(w: Wire, s: Schema, x: seq<Slot>, q: Progress, i: nat, v: Value)
    requires |x| == Len(s) && SchemaOk(s) && i < Len(s) && Complete(s, q)
    requires !IsArray(FieldAt(s, i)) && !FieldAt(s, i).kind.Sub? && Typed(w, FieldAt(s, i).kind, v)
    requires Compared(Noted(s, At(s, i), q.words), RequiredIndex(s, Len(s)))
    ensures HasRoom(FieldAt(s, i), x[i], q.count)
    ensures DecodeLoop(w, s, x, q, TaggedBytes(w, FieldAt(s, i), v)) == Some((Stored(s, x, i, q.count, v), []))
    ensures Replaced(s, x, i, v, Stored(s, x, i, q.count, v))
  {
    var f := FieldAt(s, i);
    SchemaReachable(s, i);
    SimpleRoundTrip(w, f.kind, Target(f, x[i]), v);
    var q' := Entered(s, At(s, i), q).value;
    LoopValue(w, s, x, q, q', i, v, []);
    assert TaggedBytes(w, f, v) + [] == TaggedBytes(w, f, v) && ValueBytes(w, f.kind, v) + [] == ValueBytes(w, f.kind, v);
  }

  lemma SimpleRoundTrip(w: Wire, k: Kind, target: Value, v: Value)
    requires !k.Sub? && Typed(w, k, v)
    ensures DecodeValue(w, k, target, ValueBytes(w, k, v) + []) == Some((v, []))
  {
    if Packable(k) {
      NumberRoundTrip(w, k, v, []);
    } else {
      DataRoundTrip(w, k, v, []);
    }
  }

  /** A fixed-count array of numbers that ends short of its count is refused. */
  lemma ShortArrayRefused(w: Wire, s: Schema, i: nat, vs: seq<Value>)
    requires SchemaOk(s) && i < Len(s) && FieldAt(s, i).rule.FixedCount? && Packable(FieldAt(s, i).kind)
    requires |vs| < FieldAt(s, i).rule.count && TypedArray(w, FieldAt(s, i), vs)
    ensures Decode(w, s, TagBytes(w, FieldAt(s, i).tag, 2) + LengthPrefixed(w, PackedBytes(w, FieldAt(s, i).kind, vs))) == None
  {
    var f := FieldAt(s, i);
    SchemaReachable(s, i);
    DefaultAt(s, i);
    var q := Entered(s, At(s, i), Start()).value;
    PackedItems(w, s, i, Defaults(s), 0, vs);
    LoopPacked(w, s, Defaults(s), Start(), q, i, PackedBytes(w, f.kind, vs), Filled(s, Defaults(s), i, 0, vs), |vs|, []);
    var b := TagBytes(w, f.tag, 2) + LengthPrefixed(w, PackedBytes(w, f.kind, vs));
    assert b + [] == b;
  }

  /** What a submessage record is decoded onto: the message that is there, but a fresh one for a member of a oneof. */
  ghost predicate Base(f: Field, slot: Slot, schema: Schema, base: seq<Slot>) {
    match f.rule
    case Required => slot == One(Message(base))
    case Optional => slot == Maybe(Some(Message(base))) || (slot == Maybe(None) && base == Defaults(schema))
    case OneOf(_) => slot.Maybe? && base == Defaults(schema)
    case _ => false
  }

  /**
   * A submessage that comes again is merged: its record is decoded onto the
   * fields already there, and only these are checked anew for required ones.
   */
  lemma SubmessageMerges(w: Wire, s: Schema, x: seq<Slot>, q: Progress, i: nat, schema: Schema, base: seq<Slot>, payload: Bytes, rest: Bytes)
    returns (r: seq<Slot>, q': Progress)
    requires |x| == Len(s) && SchemaOk(s) && i < Len(s) && FieldAt(s, i).kind == Sub(schema) && |payload| < 0x1_0000_0000
    requires Base(FieldAt(s, i), x[i], schema, base) && |base| == Len(schema)
    ensures |r| == Len(s)
    ensures var m := DecodeLoop(w, schema, base, Start(), payload);
      && DecodeLoop(w, s, x, q, w.put(8 * FieldAt(s, i).tag + 2) + (w.put(|payload|) + payload) + rest)
           == (if m.None? then None else DecodeLoop(w, s, r, q', rest))
      && (m.Some? ==> Replaced(s, x, i, Message(m.value.0), r))
  {
    SchemaReachable(s, i);
    q' := Entered(s, At(s, i), q).value;
    SubmessageRound(w, s, x, q', i, schema, base, payload, rest);
    LenRecordTaken(w, s, x, q, i, q', LengthPrefixed(w, payload), rest);
    var m := DecodeLoop(w, schema, base, Start(), payload);
    r := if m.Some? then Stored(s, x, i, q'.count, Message(m.value.0)) else x;
  }

  /** The loop on a length-delimited record of field i. */
  lemma LenRecordTaken(w: Wire, s: Schema, x: seq<Slot>, q: Progress, i: nat, q': Progress, body: Bytes, rest: Bytes)
    requires |x| == Len(s) && Reachable(s, i) && Entered(s, At(s, i), q) == Some(q')
    ensures var round := FieldRound(w, s, i, 2, x, q', body + rest);
      DecodeLoop(w, s, x, q, w.put(8 * FieldAt(s, i).tag + 2) + body + rest)
        == if round.None? then None else DecodeLoop(w, s, round.value.0, round.value.1, round.value.2)
  {
    var input := TagBytes(w, FieldAt(s, i).tag, 2) + body + rest;
    TagFirst(w, s, i, 2, body, rest);
    LoopRound(w, s, x, q, input, DecodeTag(w, input), i, q');
  }

  /** One value of a field that is no packed array. */
  lemma RoundIs(w: Wire, s: Schema, x: seq<Slot>, q: Progress, i: nat, wiretype: nat, stream: Bytes, v: Option<(Value, Bytes)>)
    requires |x| == Len(s) && i < Len(s) && !IsPacked(FieldAt(s, i), wiretype) && HasRoom(FieldAt(s, i), x[i], q.count)
    requires DecodeValue(w, FieldAt(s, i).kind, Target(FieldAt(s, i), x[i]), stream) == v
    ensures FieldRound(w, s, i, wiretype, x, q, stream)
      == if v.None? then None
         else Some((Stored(s, x, i, q.count, v.value.0), Counted(FieldAt(s, i), q, q.count + 1), v.value.1))
  {
  }

  lemma SubmessageRound(w: Wire, s: Schema, x: seq<Slot>, q: Progress, i: nat, schema: Schema, base: seq<Slot>, payload: Bytes, rest: Bytes)
    requires |x| == Len(s) && i < Len(s) && FieldAt(s, i).kind == Sub(schema) && |payload| < 0x1_0000_0000
    requires Base(FieldAt(s, i), x[i], schema, base) && |base| == Len(schema)
    ensures HasRoom(FieldAt(s, i), x[i], q.count)
    ensures var m := DecodeLoop(w, schema, base, Start(), payload);
      FieldRound(w, s, i, 2, x, q, LengthPrefixed(w, payload) + rest)
        == if m.None? then None else Some((Stored(s, x, i, q.count, Message(m.value.0)), q, rest))
  {
    var m := DecodeLoop(w, schema, base, Start(), payload);
    TargetIsBase(FieldAt(s, i), x[i], schema, base);
    SubmessageValue(w, schema, base, payload, rest);
    RoundIs(w, s, x, q, i, 2, LengthPrefixed(w, payload) + rest, if m.None? then None else Some((Message(m.value.0), rest)));
  }

  lemma TargetIsBase(f: Field, slot: Slot, schema: Schema, base: seq<Slot>)
    requires f.kind == Sub(schema) && Base(f, slot, schema, base)
    ensures Target(f, slot) == Message(base) && HasRoom(f, slot, 0) && !f.rule.FixedCount? && !f.rule.Repeated?
  {
  }

  lemma SubmessageValue(w: Wire, schema: Schema, base: seq<Slot>, payload: Bytes, rest: Bytes)
    requires |base| == Len(schema) && |payload| < 0x1_0000_0000
    ensures var m := DecodeLoop(w, schema, base, Start(), payload);
      DecodeValue(w, Sub(schema), Message(base), LengthPrefixed(w, payload) + rest)
        == if m.None? then None else Some((Message(m.value.0), rest))
  {
    PrefixedRoundTrip(w, payload, rest);
  }
}
