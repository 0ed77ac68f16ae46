/**
 * nanopb's integers: base-128 varints with their 32-bit and 64-bit decoders,
 * and ZigZag, as in "Base 128 Varints" and "Signed Integers" of the Protocol
 * Buffers Encoding specification. `bitpos` of the source is 7 * i here.
 */
module PbVarints {
  import opened InternalKeys
  import opened Coding

  const TWO_31: int := 0x8000_0000
  const TWO_32: int := 0x1_0000_0000
  const TWO_63: int := 0x8000_0000_0000_0000
  const TWO_64: int := 0x1_0000_0000_0000_0000

  // ----- pb_encode_varint -----

  /** Without its last bit cleared, what the loop has in the buffer after i rounds. */
  function Groups(value: nat): (b: Bytes)
    ensures value > 0 ==> b != []
  {
    if value == 0 then [] else [(value % 128 + 128) as byte] + Groups(value / 128)
  }

  function ClearTop(b: Bytes): Bytes
    requires b != []
  {
    b[..|b| - 1] + [b[|b| - 1] % 128]
  }

  lemma {:induction false} GroupsAreVarint(value: nat)
    requires value > 0
    ensures ClearTop(Groups(value)) == EncodeVarint(value)
  {
    if value < 128 {
      assert Groups(value) == [(value + 128) as byte] + Groups(0);
    } else {
      GroupsAreVarint(value / 128);
      var rest := Groups(value / 128);
      var b := Groups(value);
      assert b == [b[0]] + rest;
      assert b[..|b| - 1] == [b[0]] + rest[..|rest| - 1];
    }
  }

  lemma {:induction false} VarintLength(value: nat, limit: nat)
    requires limit > 0 && value < Power128(limit)
    ensures |EncodeVarint(value)| <= limit
    decreases limit
  {
    if value >= 128 {
      assert value / 128 < Power128(limit - 1);
      assert Power128(0) == 1;
      VarintLength(value / 128, limit - 1);
    }
  }

  /** The buffer loop writes the standard varint, in at most ten bytes. */
  method EncodeVarint64(value: nat) returns (buffer: Bytes)
    requires value < TWO_64
    ensures buffer == EncodeVarint(value) && |buffer| <= 10
  {
    PowersOf128();
    VarintLength(value, 10);
    if value <= 0x7F {
      return [value as byte];
    }
    var v := value;
    buffer := [];
    assert Groups(value) == [] + Groups(value);
    while v != 0
      invariant Groups(value) == buffer + Groups(v)
      decreases v
    {
      assert buffer + ([(v % 128 + 128) as byte] + Groups(v / 128)) == buffer + [(v % 128 + 128) as byte] + Groups(v / 128);
      buffer := buffer + [(v % 128 + 128) as byte];
      v := v / 128;
    }
    assert buffer + [] == buffer;
    GroupsAreVarint(value);
    buffer := buffer[..|buffer| - 1] + [buffer[|buffer| - 1] % 128];
  }

  // ----- pb_decode_varint -----

  /** The loop after i bytes: the accumulated bits and what is left to read. */
  function Decode64From(input: Bytes, i: nat, result: nat): (r: Option<(nat, Bytes)>)
    ensures r.Some? ==> |r.value.1| < |input|
    decreases |input|
  {
    if 7 * i >= 64 || input == [] then None
    else
      var result' := (result + Placed(input[0] as nat % 128, i)) % TWO_64;
      if input[0] >= 128 then Decode64From(input[1..], i + 1, result') else Some((result', input[1..]))
  }

  method DecodeVarint64(stream: Bytes) returns (r: Option<(nat, Bytes)>)
    ensures r == Decode64From(stream, 0, 0)
  {
    var input, i, result := stream, 0, 0;
    while true
      invariant i >= 0 && result >= 0 && Decode64From(stream, 0, 0) == Decode64From(input, i, result)
      decreases |input|
    {
      if 7 * i >= 64 || input == [] {
        return None;
      }
      var b := input[0];
      result := (result + Placed(b as nat % 128, i)) % TWO_64;
      input := input[1..];
      i := i + 1;
      if b < 128 {
        return Some((result, input));
      }
    }
  }

  /** A number shifted to its place after i groups, 7 * i bits up. */
  function Placed(d: nat, i: nat): nat {
    if i == 0 then d else d * Power128(i)
  }

  lemma PlacedSplits(d: nat, v: nat, i: nat)
    ensures Placed(d, i) + Placed(v, i + 1) == Placed(d + 128 * v, i)
  {
    var p := Power128(i);
    assert Power128(i + 1) == 128 * p;
    assert d * p + v * (128 * p) == (d + 128 * v) * p;
  }

  lemma ModAdd64(x: nat, y: nat)
    ensures (x % TWO_64 + y) % TWO_64 == (x + y) % TWO_64
  {
  }

  /** What remains to be read of a varint, weighted by its place. */
  predicate Reads64(r: Option<(nat, Bytes)>, v: Option<(nat, nat)>, input: Bytes, i: nat, result: nat)
    requires v.Some? ==> v.value.1 <= |input|
  {
    if v.None? then r.None? else r == Some(((result + Placed(v.value.0, i)) % TWO_64, input[v.value.1..]))
  }

  /** One more group in front. */
  function Extended(d: nat, v: Option<(nat, nat)>): Option<(nat, nat)> {
    if v.None? then None else Some((d + 128 * v.value.0, v.value.1 + 1))
  }

  lemma OneMore64(r: Option<(nat, Bytes)>, v: Option<(nat, nat)>, input: Bytes, i: nat, result: nat, d: nat)
    requires input != [] && (v.Some? ==> v.value.1 < |input|)
    requires Reads64(r, v, input[1..], i + 1, (result + Placed(d, i)) % TWO_64)
    ensures Reads64(r, Extended(d, v), input, i, result)
  {
    if v.Some? {
      ModAdd64(result + Placed(d, i), Placed(v.value.0, i + 1));
      PlacedSplits(d, v.value.0, i);
      assert input[1..][v.value.1..] == input[v.value.1 + 1..];
    }
  }

  lemma {:induction false} Decode64IsVarint(input: Bytes, i: nat, result: nat)
    requires i <= 10 && result < TWO_64
    ensures Reads64(Decode64From(input, i, result), DecodeVarint(input, 10 - i), input, i, result)
    decreases 10 - i
  {
    if i < 10 && input != [] {
      if input[0] >= 128 {
        var d := input[0] as nat % 128;
        Decode64IsVarint(input[1..], i + 1, (result + Placed(d, i)) % TWO_64);
        MoreBytes64(input, i, result, d);
      } else {
        LastByte64(input, i, result);
      }
    }
  }

  lemma LastByte64(input: Bytes, i: nat, result: nat)
    requires i < 10 && input != [] && input[0] < 128
    ensures Reads64(Decode64From(input, i, result), DecodeVarint(input, 10 - i), input, i, result)
  {
  }

  lemma MoreBytes64(input: Bytes, i: nat, result: nat, d: nat)
    requires i < 10 && input != [] && input[0] >= 128 && d == input[0] as nat % 128
    requires var result' := (result + Placed(d, i)) % TWO_64;
      Reads64(Decode64From(input[1..], i + 1, result'), DecodeVarint(input[1..], 9 - i), input[1..], i + 1, result')
    ensures Reads64(Decode64From(input, i, result), DecodeVarint(input, 10 - i), input, i, result)
  {
    var tail, result' := input[1..], (result + Placed(d, i)) % TWO_64;
    OneMore64(Decode64From(tail, i + 1, result'), DecodeVarint(tail, 9 - i), input, i, result, d);
    assert DecodeVarint(input, 10 - i) == Extended(d, DecodeVarint(tail, 9 - i));
  }

  /** pb_decode_varint reads what the standard decoder reads, cut to 64 bits. */
  lemma Decode64IsStandard(input: Bytes)
    ensures Decode64From(input, 0, 0) == GetVarint64(input)
  {
    Decode64IsVarint(input, 0, 0);
    assert forall v: nat :: Placed(v, 0) == v;
  }

  /** Every 64-bit value is read back from the at most ten bytes it is written in. */
  lemma Varint64BytesRoundTrip(value: nat, rest: Bytes)
    requires value < TWO_64
    ensures Decode64From(EncodeVarint(value) + rest, 0, 0) == Some((value, rest)) && |EncodeVarint(value)| <= 10
  {
    Decode64IsStandard(EncodeVarint(value) + rest);
    Varint64RoundTrip(value, rest);
    PowersOf128();
    VarintLength(value, 10);
  }

  // ----- pb_decode_varint32 -----

  /** The do-while loop, with i bytes read and `result` accumulated. */
  function Decode32Rest(input: Bytes, i: nat, result: nat): (r: Option<(nat, Bytes)>)
    ensures r.Some? ==> |r.value.1| < |input|
    decreases |input|
  {
    if input == [] then None
    else
      var b := input[0] as nat;
      var overflow := 7 * i >= 32 && b % 128 != 0 && (result < TWO_31 || b != if 7 * i < 63 then 0xFF else 0x01);
      if overflow then None
      else
        var result' := if 7 * i >= 32 then result else (result + Placed(b % 128, i)) % TWO_32;
        if b >= 128 then Decode32Rest(input[1..], i + 1, result')
        else if 7 * (i + 1) == 35 && (b / 16) % 8 != 0 then None
        else Some((result', input[1..]))
  }

  function Decode32(input: Bytes): (r: Option<(nat, Bytes)>)
    ensures r.Some? ==> |r.value.1| < |input|
  {
    if input == [] then None
    else if input[0] < 128 then Some((input[0] as nat, input[1..]))
    else Decode32Rest(input[1..], 1, input[0] as nat % 128)
  }

  method DecodeVarint32(stream: Bytes) returns (r: Option<(nat, Bytes)>)
    ensures r == Decode32(stream)
  {
    if stream == [] {
      return None;
    }
    var b := stream[0] as nat;
    var input, result := stream[1..], b;
    if b >= 128 {
      var i := 1;
      result := b % 128;
      while b >= 128
        invariant i >= 1 && result >= 0 && b >= 0
        invariant b >= 128 ==> Decode32(stream) == Decode32Rest(input, i, result)
        invariant b < 128 ==> Decode32(stream) == if 7 * i == 35 && (b / 16) % 8 != 0 then None else Some((result, input))
        decreases |input| + if b >= 128 then 1 else 0
      {
        if input == [] {
          return None;
        }
        b := input[0] as nat;
        input := input[1..];
        if 7 * i >= 32 {
          var signExtension := if 7 * i < 63 then 0xFF else 0x01;
          if b % 128 != 0 && (result < TWO_31 || b != signExtension) {
            return None;
          }
        } else {
          result := (result + Placed(b % 128, i)) % TWO_32;
        }
        i := i + 1;
      }
      if 7 * i == 35 && (b / 16) % 8 != 0 {
        return None;
      }
    }
    return Some((result, input));
  }

  lemma {:induction false} HighPowers(i: nat)
    requires i >= 5
    ensures Power128(i) % TWO_32 == 0
    decreases i
  {
    if i == 5 {
      assert Power128(5) == 34359738368;
    } else {
      HighPowers(i - 1);
    }
  }

  lemma HighTermsVanish(x: nat, d: nat, i: nat)
    requires i >= 5
    ensures (x + Placed(d, i)) % TWO_32 == x % TWO_32
  {
    HighPowers(i);
    MultipleVanishes(x, d, Power128(i));
  }

  lemma {:induction false} MultipleVanishes(x: nat, d: nat, p: nat)
    requires p % TWO_32 == 0
    ensures (x + d * p) % TWO_32 == x % TWO_32
    decreases d
  {
    if d > 0 {
      MultipleVanishes(x, d - 1, p);
      assert x + d * p == (x + (d - 1) * p) + p;
    }
  }

  /** If both decoders get to the end of a varint, they agree: same bytes, same value modulo 2^32. */
  predicate Agree32(r: Option<(nat, Bytes)>, v: Option<(nat, nat)>, input: Bytes, i: nat, result: nat)
    requires v.Some? ==> v.value.1 <= |input|
  {
    r.Some? && v.Some? ==> r.value == ((result + Placed(v.value.0, i)) % TWO_32, input[v.value.1..])
  }

  lemma OneMore32(r: Option<(nat, Bytes)>, v: Option<(nat, nat)>, input: Bytes, i: nat, result: nat, d: nat, result': nat)
    requires input != [] && (v.Some? ==> v.value.1 < |input|)
    requires result < TWO_32 && result' == if i >= 5 then result else (result + Placed(d, i)) % TWO_32
    requires Agree32(r, v, input[1..], i + 1, result')
    ensures Agree32(r, Extended(d, v), input, i, result)
  {
    if v.Some? && r.Some? {
      Totals32(result, d, v.value.0, i, result');
      assert input[1..][v.value.1..] == input[v.value.1 + 1..];
    }
  }

  lemma Totals32(result: nat, d: nat, v: nat, i: nat, result': nat)
    requires result < TWO_32 && result' == if i >= 5 then result else (result + Placed(d, i)) % TWO_32
    ensures (result' + Placed(v, i + 1)) % TWO_32 == (result + Placed(d + 128 * v, i)) % TWO_32
  {
    PlacedSplits(d, v, i);
    if i >= 5 {
      HighTermsVanish(result, d, i);
    }
    SumMod32(result, Placed(d, i), Placed(v, i + 1), result');
  }

  lemma SumMod32(x: nat, a: nat, b: nat, y: nat)
    requires y == (x + a) % TWO_32 || (y == x && (x + a) % TWO_32 == x % TWO_32)
    ensures (y + b) % TWO_32 == (x + (a + b)) % TWO_32
  {
  }

  lemma LastByte32(input: Bytes, i: nat, result: nat)
    requires input != [] && input[0] < 128 && result < TWO_32 && i < 10
    ensures Agree32(Decode32Rest(input, i, result), DecodeVarint(input, 10 - i), input, i, result)
  {
    if i >= 5 {
      HighTermsVanish(result, input[0] as nat, i);
    }
  }

  lemma {:induction false} Decode32Agrees(input: Bytes, i: nat, result: nat)
    requires i <= 10 && result < TWO_32
    ensures Agree32(Decode32Rest(input, i, result), DecodeVarint(input, 10 - i), input, i, result)
    decreases 10 - i
  {
    if i < 10 && input != [] {
      if input[0] < 128 {
        LastByte32(input, i, result);
      } else {
        var d := input[0] as nat % 128;
        var result' := if i >= 5 then result else (result + Placed(d, i)) % TWO_32;
        Decode32Agrees(input[1..], i + 1, result');
        MoreBytes32(input, i, result, d, result');
      }
    }
  }

  lemma MoreBytes32(input: Bytes, i: nat, result: nat, d: nat, result': nat)
    requires i < 10 && input != [] && input[0] >= 128 && d == input[0] as nat % 128 && result < TWO_32
    requires result' == if i >= 5 then result else (result + Placed(d, i)) % TWO_32
    requires Agree32(Decode32Rest(input[1..], i + 1, result'), DecodeVarint(input[1..], 9 - i), input[1..], i + 1, result')
    ensures Agree32(Decode32Rest(input, i, result), DecodeVarint(input, 10 - i), input, i, result)
  {
    var tail := input[1..];
    if Decode32Rest(input, i, result).Some? {
      assert Decode32Rest(input, i, result) == Decode32Rest(tail, i + 1, result');
      OneMore32(Decode32Rest(tail, i + 1, result'), DecodeVarint(tail, 9 - i), input, i, result, d, result');
      assert DecodeVarint(input, 10 - i) == Extended(d, DecodeVarint(tail, 9 - i));
    }
  }

  /** The quick case for one byte is no special case. */
  lemma Decode32IsRest(input: Bytes)
    ensures Decode32(input) == Decode32Rest(input, 0, 0)
  {
    if input != [] {
      var d := input[0] as nat % 128;
      assert Placed(d, 0) == d;
    }
  }

  /** On every byte string both decoders accept, they read the same bytes and the same value modulo 2^32. */
  lemma DecodersAgree(input: Bytes)
    requires Decode32(input).Some? && Decode64From(input, 0, 0).Some?
    ensures Decode32(input).value.1 == Decode64From(input, 0, 0).value.1
    ensures Decode32(input).value.0 == Decode64From(input, 0, 0).value.0 % TWO_32
  {
    Decode64IsStandard(input);
    Decode32IsRest(input);
    Decode32Agrees(input, 0, 0);
    CutTo32(input, Decode32(input));
  }

  lemma CutTo32(input: Bytes, r: Option<(nat, Bytes)>)
    requires r.Some? && GetVarint64(input).Some? && Agree32(r, DecodeVarint(input, 10), input, 0, 0)
    ensures r.value == (GetVarint64(input).value.0 % TWO_32, GetVarint64(input).value.1)
  {
    var v := DecodeVarint(input, 10).value.0;
    assert Placed(v, 0) == v;
  }

  // ----- what the 32-bit decoder accepts -----

  /** What is left of 32 bits after i groups. */
  function Limit(i: nat): nat {
    if i == 0 then 0x1_0000_0000 else if i == 1 then 0x200_0000 else if i == 2 then 0x4_0000 else if i == 3 then 0x800 else 0x10
  }

  lemma {:induction false} Decode32Accepts(n: nat, rest: Bytes, i: nat, result: nat)
    requires i <= 4 && n < Limit(i)
    ensures Decode32Rest(EncodeVarint(n) + rest, i, result).Some?
    decreases 4 - i
  {
    if n >= 128 {
      DropGroup(n, rest, i, result);
      Decode32Accepts(n / 128, rest, i + 1, (result + Placed(n % 128, i)) % TWO_32);
    }
  }

  /** Every 32-bit value is accepted and read back. */
  lemma Uint32RoundTrip(n: nat, rest: Bytes)
    requires n < TWO_32
    ensures Decode32(EncodeVarint(n) + rest) == Some((n, rest))
  {
    Accepts32(n, rest);
    Varint64BytesRoundTrip(n, rest);
    FromAgreement(EncodeVarint(n) + rest, n, rest);
  }

  lemma Accepts32(n: nat, rest: Bytes)
    requires n < TWO_32
    ensures Decode32(EncodeVarint(n) + rest).Some?
  {
    Decode32Accepts(n, rest, 0, 0);
    Decode32IsRest(EncodeVarint(n) + rest);
  }

  lemma FromAgreement(b: Bytes, n: nat, rest: Bytes)
    requires n < TWO_32 && Decode32(b).Some? && Decode64From(b, 0, 0) == Some((n, rest))
    ensures Decode32(b) == Some((n, rest))
  {
    DecodersAgree(b);
  }

  /** The five high groups of a sign-extended negative number: four full bytes and a one. */
  lemma SignGroups(rest: Bytes, result: nat)
    requires TWO_31 <= result < TWO_32
    ensures Decode32Rest(EncodeVarint(0x1FFF_FFFF) + rest, 5, result) == Some((result, rest))
  {
    var b := EncodeVarint(0x1FFF_FFFF) + rest;
    assert EncodeVarint(0x1FFF_FFFF) == [0xFF, 0xFF, 0xFF, 0xFF, 0x01];
    SignTail(b, rest, 5, result);
  }

  lemma {:induction false} SignTail(b: Bytes, rest: Bytes, i: nat, result: nat)
    requires 5 <= i <= 9 && TWO_31 <= result < TWO_32 && |b| == 10 - i + |rest| && b[10 - i..] == rest
    requires b[9 - i] == 0x01 && forall k :: 0 <= k < 9 - i ==> b[k] == 0xFF
    ensures Decode32Rest(b, i, result) == Some((result, rest))
    decreases 9 - i
  {
    if i < 9 {
      SignTail(b[1..], rest, i + 1, result);
    }
  }

  const SIGN: nat := 0x1FFF_FFFF

  lemma SplitGroup(low: nat, p: nat)
    ensures var m := SIGN * (128 * p) + low;
      m % 128 == low % 128 && m / 128 == SIGN * p + low / 128 && (p > 0 ==> m >= 128)
  {
  }

  /** What is collected in two steps is what is collected at once. */
  lemma Collected(result: nat, low: nat, i: nat)
    requires result < TWO_32
    ensures ((result + Placed(low % 128, i)) % TWO_32 + Placed(low / 128, i + 1)) % TWO_32 == (result + Placed(low, i)) % TWO_32
  {
    PlacedSplits(low % 128, low / 128, i);
    SumMod32(result, Placed(low % 128, i), Placed(low / 128, i + 1), (result + Placed(low % 128, i)) % TWO_32);
  }

  /** Below the sign groups the decoder collects the low groups, whatever they are. */
  lemma {:induction false} LowGroups(low: nat, rest: Bytes, i: nat, result: nat, p: nat)
    requires 0 < i <= 5 && p == Power128(5 - i) && low < p && result < TWO_32
    ensures Decode32Rest(EncodeVarint(SIGN * p + low) + rest, i, result)
         == Decode32Rest(EncodeVarint(SIGN) + rest, 5, (result + Placed(low, i)) % TWO_32)
    decreases 5 - i
  {
    if i == 5 {
      assert Placed(low, i) == 0;
    } else {
      var q := Power128(4 - i);
      LowGroup(low, rest, i, result, q);
      LowGroups(low / 128, rest, i + 1, (result + Placed(low % 128, i)) % TWO_32, q);
      Collected(result, low, i);
    }
  }

  lemma LowGroup(low: nat, rest: Bytes, i: nat, result: nat, q: nat)
    requires 0 < i < 5 && q > 0
    ensures Decode32Rest(EncodeVarint(SIGN * (128 * q) + low) + rest, i, result)
         == Decode32Rest(EncodeVarint(SIGN * q + low / 128) + rest, i + 1, (result + Placed(low % 128, i)) % TWO_32)
  {
    SplitGroup(low, q);
    DropGroup(SIGN * (128 * q) + low, rest, i, result);
  }

  lemma DropGroup(m: nat, rest: Bytes, i: nat, result: nat)
    requires i < 5 && m >= 128
    ensures Decode32Rest(EncodeVarint(m) + rest, i, result)
         == Decode32Rest(EncodeVarint(m / 128) + rest, i + 1, (result + Placed(m % 128, i)) % TWO_32)
  {
    FirstByte(m, rest);
    TakesGroup(EncodeVarint(m) + rest, i, result);
  }

  lemma FirstByte(m: nat, rest: Bytes)
    requires m >= 128
    ensures var b := EncodeVarint(m) + rest;
      b[0] >= 128 && b[0] as nat % 128 == m % 128 && b[1..] == EncodeVarint(m / 128) + rest
  {
  }

  lemma TakesGroup(b: Bytes, i: nat, result: nat)
    requires i < 5 && b != [] && b[0] >= 128
    ensures Decode32Rest(b, i, result) == Decode32Rest(b[1..], i + 1, (result + Placed(b[0] as nat % 128, i)) % TWO_32)
  {
  }

  /** Every negative 32-bit value, sign-extended to ten bytes, is accepted and read as its 32-bit pattern. */
  lemma NegativeInt32Accepted(n: int, rest: Bytes)
    requires -TWO_31 <= n < 0
    ensures Decode32(EncodeVarint(TWO_64 + n) + rest) == Some((TWO_32 + n, rest))
  {
    var m: nat, low: nat := TWO_64 + n, 0x8_0000_0000 + n;
    SignSplit(n);
    FirstGroup(m, rest);
    LowGroups(low / 128, rest, 1, low % 128, Power128(4));
    assert Decode32(EncodeVarint(m) + rest) == Decode32Rest(EncodeVarint(SIGN) + rest, 5, TWO_32 + n);
    SignGroups(rest, TWO_32 + n);
  }

  lemma SignSplit(n: int)
    requires -TWO_31 <= n < 0
    ensures var m, low := TWO_64 + n, 0x8_0000_0000 + n;
      && m / 128 == SIGN * Power128(4) + low / 128 && m % 128 == low % 128 && low / 128 < Power128(4)
      && (low % 128 + Placed(low / 128, 1)) % TWO_32 == TWO_32 + n
  {
    assert Power128(4) == 268435456;
    var low := 0x8_0000_0000 + n;
    assert Placed(low / 128, 1) == low / 128 * 128;
  }

  lemma FirstGroup(m: nat, rest: Bytes)
    requires m >= 128
    ensures Decode32(EncodeVarint(m) + rest) == Decode32Rest(EncodeVarint(m / 128) + rest, 1, m % 128)
  {
    var b := EncodeVarint(m) + rest;
    assert b[1..] == EncodeVarint(m / 128) + rest;
  }

  // ----- ZigZag -----

  function Pattern64(n: int): nat {
    n % TWO_64
  }

  /** The signed reading of a 64-bit pattern. */
  function Signed64(u: nat): int
    requires u < TWO_64
  {
    if u < TWO_63 then u else u - TWO_64
  }

  /** pb_encode_svarint: shift left, and complement if negative. */
  function ZigZag(n: int): nat {
    var shifted := Pattern64(n) * 2 % TWO_64;
    if n < 0 then TWO_64 - 1 - shifted else shifted
  }

  /** pb_decode_svarint: shift right, and complement if odd. */
  function UnZigZag(u: nat): int
    requires u < TWO_64
  {
    if u % 2 == 1 then Signed64(TWO_64 - 1 - u / 2) else Signed64(u / 2)
  }

  lemma UnZigZagBack(u: nat)
    requires u < TWO_64
    ensures -TWO_63 <= UnZigZag(u) < TWO_63 && ZigZag(UnZigZag(u)) == u
  {
    assert u % 2 == 1 ==> UnZigZag(u) == -(u / 2) - 1;
    assert u % 2 == 0 ==> UnZigZag(u) == u / 2;
  }

  lemma ZigZagBack(n: int)
    requires -TWO_63 <= n < TWO_63
    ensures ZigZag(n) < TWO_64 && UnZigZag(ZigZag(n)) == n
  {
    assert n < 0 ==> ZigZag(n) == -2 * n - 1;
    assert n >= 0 ==> ZigZag(n) == 2 * n;
  }

  /** ZigZag is a bijection between the signed and the unsigned 64-bit numbers. */
  lemma ZigZagBijection(n: int, u: nat)
    requires -TWO_63 <= n < TWO_63 && u < TWO_64
    ensures ZigZag(n) < TWO_64 && UnZigZag(ZigZag(n)) == n
    ensures -TWO_63 <= UnZigZag(u) < TWO_63 && ZigZag(UnZigZag(u)) == u
  {
    ZigZagBack(n);
    UnZigZagBack(u);
  }

  lemma SvarintRoundTrip(n: int, rest: Bytes)
    requires -TWO_63 <= n < TWO_63
    ensures var r := Decode64From(EncodeVarint(ZigZag(n)) + rest, 0, 0);
      r.Some? && r.value.0 < TWO_64 && UnZigZag(r.value.0) == n && r.value.1 == rest
  {
    ZigZagBijection(n, 0);
    Varint64BytesRoundTrip(ZigZag(n), rest);
  }
}
