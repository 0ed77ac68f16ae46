/** Fixed-width and varint integers, and length-prefixed strings (util/coding as the log and the manifest use it). */
module Coding {
  import opened InternalKeys

  // ----- fixed width, little endian -----

  function EncodeFixed(n: nat, width: nat): (b: Bytes)
    ensures |b| == width
    decreases width, n
  {
    if width == 0 then [] else [(n % 256) as byte] + EncodeFixed(n / 256, width - 1)
  }

  function DecodeFixed(b: Bytes): (n: nat) {
    if b == [] then 0 else b[0] as nat + 256 * DecodeFixed(b[1..])
  }

  function Power256(width: nat): (p: nat)
    ensures p > 0
  {
    if width == 0 then 1 else 256 * Power256(width - 1)
  }

  lemma {:induction false} FixedRoundTrip(n: nat, width: nat)
    requires n < Power256(width)
    ensures DecodeFixed(EncodeFixed(n, width)) == n
    decreases width
  {
    if width > 0 {
      assert n / 256 < Power256(width - 1);
      FixedRoundTrip(n / 256, width - 1);
      assert EncodeFixed(n, width)[1..] == EncodeFixed(n / 256, width - 1);
    }
  }

  // ----- base-128 varints -----

  function EncodeVarint(n: nat): (b: Bytes)
    ensures |b| > 0
  {
    if n < 128 then [n as byte] else [(n % 128 + 128) as byte] + EncodeVarint(n / 128)
  }

  /** The value and length of a varint of at most `limit` bytes at the front, if there is one. */
  function DecodeVarint(b: Bytes, limit: nat): (r: Option<(nat, nat)>)
    ensures r.Some? ==> 0 < r.value.1 <= |b| && r.value.1 <= limit
    decreases limit, |b|
  {
    if b == [] || limit == 0 then None
    else if b[0] < 128 then Some((b[0] as nat, 1))
    else
      match DecodeVarint(b[1..], limit - 1)
      case None => None
      case Some(rest) => Some((b[0] as nat - 128 + 128 * rest.0, rest.1 + 1))
  }

  function Power128(limit: nat): (p: nat)
    ensures p > 0
  {
    if limit == 0 then 1 else 128 * Power128(limit - 1)
  }

  lemma {:induction false} VarintRoundTrip(n: nat, rest: Bytes, limit: nat)
    requires limit > 0 && n < Power128(limit)
    ensures DecodeVarint(EncodeVarint(n) + rest, limit) == Some((n, |EncodeVarint(n)|))
    decreases limit
  {
    var b := EncodeVarint(n) + rest;
    if n >= 128 {
      assert b[1..] == EncodeVarint(n / 128) + rest;
      assert n / 128 < Power128(limit - 1);
      assert Power128(0) == 1 && n / 128 >= 1;
      VarintRoundTrip(n / 128, rest, limit - 1);
    }
  }

  /** GetVarint32: at most five bytes, truncated to 32 bits; the value and what follows it. */
  function GetVarint32(b: Bytes): (r: Option<(nat, Bytes)>)
    ensures r.Some? ==> |r.value.1| < |b|
  {
    match DecodeVarint(b, 5)
    case None => None
    case Some(v) => Some((v.0 % 0x1_0000_0000, b[v.1..]))
  }

  /** GetVarint64: at most ten bytes, truncated to 64 bits. */
  function GetVarint64(b: Bytes): (r: Option<(nat, Bytes)>)
    ensures r.Some? ==> |r.value.1| < |b|
  {
    match DecodeVarint(b, 10)
    case None => None
    case Some(v) => Some((v.0 % 0x1_0000_0000_0000_0000, b[v.1..]))
  }

  lemma PowersOf128()
    ensures Power128(5) > 0x1_0000_0000 && Power128(10) > 0x1_0000_0000_0000_0000
  {
    assert Power128(5) == 34359738368;
    assert Power128(10) == Power128(5) * Power128(5);
  }

  lemma Varint32RoundTrip(n: nat, rest: Bytes)
    requires n < 0x1_0000_0000
    ensures GetVarint32(EncodeVarint(n) + rest) == Some((n, rest))
  {
    PowersOf128();
    VarintRoundTrip(n, rest, 5);
    assert (EncodeVarint(n) + rest)[|EncodeVarint(n)|..] == rest;
  }

  lemma Varint64RoundTrip(n: nat, rest: Bytes)
    requires n < 0x1_0000_0000_0000_0000
    ensures GetVarint64(EncodeVarint(n) + rest) == Some((n, rest))
  {
    PowersOf128();
    VarintRoundTrip(n, rest, 10);
    assert (EncodeVarint(n) + rest)[|EncodeVarint(n)|..] == rest;
  }

  // ----- length-prefixed strings -----

  /** PutLengthPrefixedSlice: the length is cut to 32 bits. */
  function PutLengthPrefixed(s: Bytes): Bytes {
    EncodeVarint(|s| % 0x1_0000_0000) + s
  }

  /** GetLengthPrefixedSlice: the string and what follows it. */
  function GetLengthPrefixed(b: Bytes): (r: Option<(Bytes, Bytes)>)
    ensures r.Some? ==> |r.value.1| < |b|
  {
    match GetVarint32(b)
    case None => None
    case Some((len, rest)) => if len > |rest| then None else Some((rest[..len], rest[len..]))
  }

  lemma LengthPrefixedRoundTrip(s: Bytes, rest: Bytes)
    requires |s| < 0x1_0000_0000
    ensures GetLengthPrefixed(PutLengthPrefixed(s) + rest) == Some((s, rest))
  {
    assert PutLengthPrefixed(s) + rest == EncodeVarint(|s|) + (s + rest);
    Varint32RoundTrip(|s|, s + rest);
    assert (s + rest)[..|s|] == s && (s + rest)[|s|..] == rest;
  }

  // ----- sequences of encoded items -----

  function Flat<T>(each: T -> Bytes, xs: seq<T>): Bytes {
    if xs == [] then [] else each(xs[0]) + Flat(each, xs[1..])
  }

  lemma JoinAssoc(x: Bytes, y: Bytes, z: Bytes)
    ensures x + y + z == x + (y + z)
  {
  }

  lemma {:induction false} FlatAppend<T>(each: T -> Bytes, a: seq<T>, b: seq<T>)
    ensures Flat(each, a + b) == Flat(each, a) + Flat(each, b)
    decreases |a|
  {
    if a == [] {
      assert a + b == b;
    } else {
      FlatAppend(each, a[1..], b);
      assert (a + b)[1..] == a[1..] + b;
      JoinAssoc(each(a[0]), Flat(each, a[1..]), Flat(each, b));
    }
  }

  lemma FlatOne<T>(each: T -> Bytes, xs: seq<T>)
    requires |xs| == 1
    ensures Flat(each, xs) == each(xs[0])
  {
    assert each(xs[0]) + [] == each(xs[0]);
  }

  // ----- the codec as its users see it -----

  datatype CodecFunctions = CodecFunctions(
    putVarint32: nat -> Bytes, getVarint32: Bytes -> Option<(nat, Bytes)>,
    putVarint64: nat -> Bytes, getVarint64: Bytes -> Option<(nat, Bytes)>,
    putString: Bytes -> Bytes, getString: Bytes -> Option<(Bytes, Bytes)>,
    putFixed: (nat, nat) -> Bytes, getFixed: Bytes -> nat)

  /** Every value is read back with what follows it, and reading always consumes something. */
  ghost predicate SoundVarints(c: CodecFunctions) {
    && (forall n: nat, rest: Bytes | n < 0x1_0000_0000 :: c.getVarint32(c.putVarint32(n) + rest) == Some((n, rest)))
    && (forall n: nat, rest: Bytes | n < 0x1_0000_0000_0000_0000 :: c.getVarint64(c.putVarint64(n) + rest) == Some((n, rest)))
    && (forall b: Bytes :: c.getVarint32(b).Some? ==> |c.getVarint32(b).value.1| < |b|)
    && (forall b: Bytes :: c.getVarint64(b).Some? ==> |c.getVarint64(b).value.1| < |b|)
  }

  ghost predicate SoundStrings(c: CodecFunctions) {
    && (forall s: Bytes, rest: Bytes | |s| < 0x1_0000_0000 :: c.getString(c.putString(s) + rest) == Some((s, rest)))
    && (forall b: Bytes :: c.getString(b).Some? ==> |c.getString(b).value.1| < |b|)
  }

  ghost predicate SoundFixed(c: CodecFunctions) {
    && (forall n: nat, width: nat :: |c.putFixed(n, width)| == width)
    && (forall n: nat, width: nat | n < Power256(width) :: c.getFixed(c.putFixed(n, width)) == n)
  }

  ghost predicate Sound(c: CodecFunctions) {
    SoundVarints(c) && SoundStrings(c) && SoundFixed(c)
  }

  /** The encoding LevelDB uses. */
  function Standard(): CodecFunctions {
    CodecFunctions(
      (n: nat) => EncodeVarint(n), (b: Bytes) => GetVarint32(b),
      (n: nat) => EncodeVarint(n), (b: Bytes) => GetVarint64(b),
      (s: Bytes) => PutLengthPrefixed(s), (b: Bytes) => GetLengthPrefixed(b),
      (n: nat, width: nat) => EncodeFixed(n, width), (b: Bytes) => DecodeFixed(b))
  }

  lemma StandardVarints()
    ensures SoundVarints(Standard())
  {
    var c := Standard();
    forall n: nat, rest: Bytes | n < 0x1_0000_0000 ensures c.getVarint32(c.putVarint32(n) + rest) == Some((n, rest)) {
      Varint32RoundTrip(n, rest);
    }
    forall n: nat, rest: Bytes | n < 0x1_0000_0000_0000_0000
      ensures c.getVarint64(c.putVarint64(n) + rest) == Some((n, rest))
    {
      Varint64RoundTrip(n, rest);
    }
  }

  lemma StandardStrings()
    ensures SoundStrings(Standard())
  {
    var c := Standard();
    forall s: Bytes, rest: Bytes | |s| < 0x1_0000_0000 ensures c.getString(c.putString(s) + rest) == Some((s, rest)) {
      LengthPrefixedRoundTrip(s, rest);
    }
  }

  lemma StandardFixed()
    ensures SoundFixed(Standard())
  {
    var c := Standard();
    forall n: nat, width: nat | n < Power256(width) ensures c.getFixed(c.putFixed(n, width)) == n {
      FixedRoundTrip(n, width);
    }
  }

  /** LevelDB's encoding has every property its users rely on. */
  function StandardCodec(): (c: CodecFunctions)
    ensures Sound(c)
  {
    StandardVarints(); StandardStrings(); StandardFixed();
    Standard()
  }

  /** Any encoding with those properties; `StandardCodec` is the one in use. */
  type Codec = c: CodecFunctions | Sound(c) ghost witness StandardCodec()
}
