/**
 * `WriteBatch`: operations kept in the byte form that goes to the log, with a
 * header of an 8-byte sequence number and a 4-byte count.
 */
module WriteBatches {
  import opened InternalKeys
  import opened Coding

  const BATCH_HEADER: nat := 12
  const TYPE_DELETION: byte := 0
  const TYPE_VALUE: byte := 1

  datatype Operation = Put(key: Bytes, value: Bytes) | Delete(key: Bytes)

  datatype Status = Ok | Corruption(message: string)

  // ----- the byte form -----

  function EncodeOp(c: Codec, op: Operation): (b: Bytes)
    ensures |b| > 0
  {
    match op
    case Put(key, value) => [TYPE_VALUE] + c.putString(key) + c.putString(value)
    case Delete(key) => [TYPE_DELETION] + c.putString(key)
  }

  function OpWriter(c: Codec): Operation -> Bytes {
    (op: Operation) => EncodeOp(c, op)
  }

  function EncodeOps(c: Codec, ops: seq<Operation>): Bytes {
    Flat(OpWriter(c), ops)
  }

  function Header(c: Codec, sequence: nat, count: nat): (b: Bytes)
    ensures |b| == BATCH_HEADER
  {
    c.putFixed(sequence, 8) + c.putFixed(count, 4)
  }

  /** The bytes of a batch of operations numbered from `sequence` on. */
  function Rep(c: Codec, sequence: nat, ops: seq<Operation>): (b: Bytes)
    ensures |b| >= BATCH_HEADER
  {
    Header(c, sequence, |ops|) + EncodeOps(c, ops)
  }

  function Sequence(c: Codec, rep: Bytes): nat
    requires |rep| >= BATCH_HEADER
  {
    c.getFixed(rep[..8])
  }

  /** The stored count, as the unsigned number the four bytes hold. */
  function StoredCount(c: Codec, rep: Bytes): nat
    requires |rep| >= BATCH_HEADER
  {
    c.getFixed(rep[8..BATCH_HEADER])
  }

  /** WriteBatchInternal::Count returns an `int`. */
  function Count(c: Codec, rep: Bytes): int
    requires |rep| >= BATCH_HEADER
  {
    var n := StoredCount(c, rep);
    if n < 0x8000_0000 then n else n - 0x1_0000_0000
  }

  predicate Encodable(op: Operation) {
    |op.key| < 0x1_0000_0000 && (op.Put? ==> |op.value| < 0x1_0000_0000)
  }

  /** What a batch can hold: the count is an `int`, lengths and the sequence number have their widths. */
  predicate Batchable(sequence: nat, ops: seq<Operation>) {
    sequence < 0x1_0000_0000_0000_0000 && |ops| < 0x8000_0000 && forall op <- ops :: Encodable(op)
  }

  // ----- WriteBatch::Iterate -----

  /** One operation off the front, as the loop body reads it. */
  datatype Parsed = Op(op: Operation, rest: Bytes) | Failed(message: string)

  function ParseOp(c: Codec, input: Bytes): (r: Parsed)
    requires input != []
    ensures r.Op? ==> |r.rest| < |input|
  {
    var rest := input[1..];
    if input[0] == TYPE_VALUE then
      match c.getString(rest)
      case None => Failed("bad WriteBatch Put")
      case Some((key, more)) =>
        (match c.getString(more)
         case None => Failed("bad WriteBatch Put")
         case Some((value, after)) => Op(Put(key, value), after))
    else if input[0] == TYPE_DELETION then
      match c.getString(rest)
      case None => Failed("bad WriteBatch Delete")
      case Some((key, after)) => Op(Delete(key), after)
    else Failed("unknown WriteBatch tag")
  }

  /** The operations handed to the handler, and how the loop ends. */
  function ParseOps(c: Codec, input: Bytes): (r: (seq<Operation>, Status))
    decreases |input|
  {
    if input == [] then ([], Ok)
    else
      match ParseOp(c, input)
      case Failed(message) => ([], Corruption(message))
      case Op(op, rest) => var r := ParseOps(c, rest); ([op] + r.0, r.1)
  }

  /** Everything the handler is given, in order, and the status returned. */
  function Iterated(c: Codec, rep: Bytes): (r: (seq<Operation>, Status)) {
    if |rep| < BATCH_HEADER then ([], Corruption("malformed WriteBatch (too small)"))
    else
      var r := ParseOps(c, rep[BATCH_HEADER..]);
      if r.1.Ok? && |r.0| != Count(c, rep) then (r.0, Corruption("WriteBatch has wrong count")) else r
  }

  /** Iterate: the handler is given the operations before an error too. */
  method Iterate(c: Codec, rep: Bytes) returns (handled: seq<Operation>, status: Status)
    ensures (handled, status) == Iterated(c, rep)
  {
    if |rep| < BATCH_HEADER {
      return [], Corruption("malformed WriteBatch (too small)");
    }
    var input := rep[BATCH_HEADER..];
    var found := 0;
    handled := [];
    ghost var all := ParseOps(c, input);
    assert all.0 == [] + all.0;
    while input != []
      invariant found == |handled|
      invariant all.0 == handled + ParseOps(c, input).0 && all.1 == ParseOps(c, input).1
      decreases |input|
    {
      found := found + 1;
      match ParseOp(c, input)
      case Failed(message) =>
        assert handled + [] == handled;
        return handled, Corruption(message);
      case Op(op, rest) =>
        assert handled + ([op] + ParseOps(c, rest).0) == handled + [op] + ParseOps(c, rest).0;
        handled := handled + [op];
        input := rest;
    }
    assert handled + [] == handled;
    if found != Count(c, rep) {
      return handled, Corruption("WriteBatch has wrong count");
    }
    return handled, Ok;
  }

  lemma ParseEncoded(c: Codec, op: Operation, rest: Bytes)
    requires Encodable(op)
    ensures ParseOp(c, EncodeOp(c, op) + rest) == Op(op, rest)
  {
    var b := EncodeOp(c, op) + rest;
    if op.Put? {
      assert b[1..] == c.putString(op.key) + (c.putString(op.value) + rest);
    } else {
      assert b[1..] == c.putString(op.key) + rest;
    }
  }

  lemma FirstParsed(c: Codec, ops: seq<Operation>)
    requires ops != [] && Encodable(ops[0])
    ensures var rest := ParseOps(c, EncodeOps(c, ops[1..]));
      ParseOps(c, EncodeOps(c, ops)) == ([ops[0]] + rest.0, rest.1)
  {
    ParseEncoded(c, ops[0], EncodeOps(c, ops[1..]));
    assert EncodeOps(c, ops) == EncodeOp(c, ops[0]) + EncodeOps(c, ops[1..]);
  }

  lemma {:induction false} ParseAllEncoded(c: Codec, ops: seq<Operation>)
    requires forall op <- ops :: Encodable(op)
    ensures ParseOps(c, EncodeOps(c, ops)) == (ops, Ok)
  {
    if ops != [] {
      FirstParsed(c, ops);
      ParseAllEncoded(c, ops[1..]);
      assert ops == [ops[0]] + ops[1..];
    }
  }

  lemma HeaderParts(c: Codec, sequence: nat, ops: seq<Operation>)
    requires Batchable(sequence, ops)
    ensures var rep := Rep(c, sequence, ops);
      Sequence(c, rep) == sequence && StoredCount(c, rep) == |ops| && Count(c, rep) == |ops| && rep[BATCH_HEADER..] == EncodeOps(c, ops)
  {
    var rep := Rep(c, sequence, ops);
    assert rep[..8] == c.putFixed(sequence, 8);
    assert rep[8..BATCH_HEADER] == c.putFixed(|ops|, 4);
    assert Power256(4) == 0x1_0000_0000 && Power256(8) == 0x1_0000_0000_0000_0000;
  }

  /** Round trip: a batch gives back its operations and its sequence number. */
  lemma BatchRoundTrip(c: Codec, sequence: nat, ops: seq<Operation>)
    requires Batchable(sequence, ops)
    ensures Iterated(c, Rep(c, sequence, ops)) == (ops, Ok)
    ensures Sequence(c, Rep(c, sequence, ops)) == sequence && Count(c, Rep(c, sequence, ops)) == |ops|
  {
    HeaderParts(c, sequence, ops);
    ParseAllEncoded(c, ops);
  }

  // ----- building batches -----

  function WithCount(c: Codec, rep: Bytes, n: int): (r: Bytes)
    requires |rep| >= BATCH_HEADER
    ensures |r| == |rep|
  {
    rep[..8] + c.putFixed(n % 0x1_0000_0000, 4) + rep[BATCH_HEADER..]
  }

  function WithSequence(c: Codec, rep: Bytes, sequence: nat): (r: Bytes)
    requires |rep| >= BATCH_HEADER
    ensures |r| == |rep|
  {
    c.putFixed(sequence, 8) + rep[8..]
  }

  lemma CountOfRep(c: Codec, sequence: nat, ops: seq<Operation>, n: nat)
    requires n < 0x1_0000_0000
    ensures WithCount(c, Rep(c, sequence, ops), n) == Header(c, sequence, n) + EncodeOps(c, ops)
  {
    var rep := Rep(c, sequence, ops);
    assert rep[..8] == c.putFixed(sequence, 8) && rep[BATCH_HEADER..] == EncodeOps(c, ops);
  }

  lemma Joined(w: Bytes, x: Bytes, y: Bytes, z: Bytes)
    ensures w + x + y + z == w + (x + y + z)
  {
  }

  class WriteBatch {
    const c: Codec
    var rep: Bytes

    predicate Valid()
      reads this
    {
      |rep| >= BATCH_HEADER
    }

    /** The batch holds exactly these operations, numbered from `sequence` on. */
    ghost predicate Holds(sequence: nat, ops: seq<Operation>)
      reads this
    {
      rep == Rep(c, sequence, ops) && Batchable(sequence, ops)
    }

    constructor (c: Codec)
      ensures Valid() && this.c == c && Holds(0, [])
    {
      this.c := c;
      rep := Header(c, 0, 0);
    }

    method Clear()
      modifies this
      ensures Valid() && Holds(0, [])
    {
      rep := Header(c, 0, 0);
    }

    method Put(key: Bytes, value: Bytes)
      requires Valid()
      modifies this
      ensures Valid()
      ensures forall s, ops | old(Holds(s, ops)) && Batchable(s, ops + [Operation.Put(key, value)]) ::
          Holds(s, ops + [Operation.Put(key, value)])
    {
      rep := WithCount(c, rep, Count(c, rep) + 1);
      rep := rep + [TYPE_VALUE];
      rep := rep + c.putString(key);
      rep := rep + c.putString(value);
      Joined(WithCount(c, old(rep), Count(c, old(rep)) + 1), [TYPE_VALUE], c.putString(key), c.putString(value));
      AddedHolds(c, old(rep), Operation.Put(key, value));
    }

    method Delete(key: Bytes)
      requires Valid()
      modifies this
      ensures Valid()
      ensures forall s, ops | old(Holds(s, ops)) && Batchable(s, ops + [Operation.Delete(key)]) ::
          Holds(s, ops + [Operation.Delete(key)])
    {
      rep := WithCount(c, rep, Count(c, rep) + 1);
      rep := rep + [TYPE_DELETION];
      rep := rep + c.putString(key);
      assert rep == Added(c, old(rep), Operation.Delete(key));
      AddedHolds(c, old(rep), Operation.Delete(key));
    }

    /** Append another batch's operations; the sequence number stays. */
    method Append(src: WriteBatch)
      requires Valid() && src.Valid() && src.c == c
      modifies this
      ensures Valid()
      ensures forall s, ops, t, more | old(Holds(s, ops)) && old(src.Holds(t, more)) && Batchable(s, ops + more) ::
          Holds(s, ops + more)
    {
      ghost var theirs := src.rep;
      rep := WithCount(c, rep, Count(c, rep) + Count(c, src.rep)) + src.rep[BATCH_HEADER..];
      forall s, ops, t, more | old(Holds(s, ops)) && old(src.Holds(t, more)) && Batchable(s, ops + more)
        ensures Holds(s, ops + more)
      {
        RepGrows(c, s, ops, more);
        HeaderParts(c, t, more);
      }
    }

    method SetSequence(sequence: nat)
      requires Valid()
      modifies this
      ensures Valid()
      ensures forall s, ops | old(Holds(s, ops)) && sequence < 0x1_0000_0000_0000_0000 :: Holds(sequence, ops)
    {
      rep := WithSequence(c, rep, sequence);
      forall s, ops | old(Holds(s, ops)) && sequence < 0x1_0000_0000_0000_0000 ensures Holds(sequence, ops) {
        assert Rep(c, s, ops)[8..] == c.putFixed(|ops|, 4) + EncodeOps(c, ops);
      }
    }
  }

  /** What Put and Delete do to the bytes. */
  function Added(c: Codec, rep: Bytes, op: Operation): Bytes
    requires |rep| >= BATCH_HEADER
  {
    WithCount(c, rep, Count(c, rep) + 1) + EncodeOp(c, op)
  }

  lemma AddedHolds(c: Codec, rep: Bytes, op: Operation)
    requires |rep| >= BATCH_HEADER
    ensures forall s, ops | rep == Rep(c, s, ops) && Batchable(s, ops) && Batchable(s, ops + [op]) ::
        Added(c, rep, op) == Rep(c, s, ops + [op])
  {
    forall s, ops | rep == Rep(c, s, ops) && Batchable(s, ops) && Batchable(s, ops + [op])
      ensures Added(c, rep, op) == Rep(c, s, ops + [op])
    {
      RepGrows(c, s, ops, [op]);
      FlatOne(OpWriter(c), [op]);
    }
  }

  /** Counting up and appending the bytes of more operations gives the longer batch. */
  lemma RepGrows(c: Codec, sequence: nat, ops: seq<Operation>, more: seq<Operation>)
    requires Batchable(sequence, ops) && Batchable(sequence, ops + more)
    ensures var rep := Rep(c, sequence, ops);
      WithCount(c, rep, Count(c, rep) + |more|) + EncodeOps(c, more) == Rep(c, sequence, ops + more)
  {
    HeaderParts(c, sequence, ops);
    CountOfRep(c, sequence, ops, |ops| + |more|);
    FlatAppend(OpWriter(c), ops, more);
    JoinAssoc(Header(c, sequence, |ops| + |more|), EncodeOps(c, ops), EncodeOps(c, more));
  }

  /** The layout of a small batch: sequence number and count, little-endian, then tag 1, key and value, or tag 0 and key. */
  lemma BatchLayout(sequence: nat, key: Bytes, value: Bytes)
    requires sequence < 256 && |key| < 128 && |value| < 128
    ensures Rep(StandardCodec(), sequence, [Operation.Put(key, value)])
      == [sequence as byte, 0, 0, 0, 0, 0, 0, 0, 1, 0, 0, 0] + ([1] + ([|key| as byte] + key) + ([|value| as byte] + value))
    ensures Rep(StandardCodec(), sequence, [Operation.Delete(key)])
      == [sequence as byte, 0, 0, 0, 0, 0, 0, 0, 1, 0, 0, 0] + ([0] + ([|key| as byte] + key))
  {
    var c := StandardCodec();
    SmallHeader(sequence);
    SmallString(key);
    SmallString(value);
    FlatOne(OpWriter(c), [Operation.Put(key, value)]);
    FlatOne(OpWriter(c), [Operation.Delete(key)]);
  }

  lemma SmallHeader(sequence: nat)
    requires sequence < 256
    ensures Header(StandardCodec(), sequence, 1) == [sequence as byte, 0, 0, 0, 0, 0, 0, 0, 1, 0, 0, 0]
  {
    SmallFixed(sequence);
    SmallFixed(1);
  }

  lemma SmallString(s: Bytes)
    requires |s| < 128
    ensures StandardCodec().putString(s) == [|s| as byte] + s
  {
    assert StandardCodec().putString(s) == PutLengthPrefixed(s);
    assert EncodeVarint(|s|) == [|s| as byte];
  }

  lemma SmallFixed(n: nat)
    requires n < 256
    ensures EncodeFixed(n, 4) == [n as byte, 0, 0, 0] && EncodeFixed(n, 8) == [n as byte, 0, 0, 0, 0, 0, 0, 0]
  {
    assert EncodeFixed(0, 3) == [0, 0, 0];
    assert EncodeFixed(0, 4) == [0] + EncodeFixed(0, 3);
    assert EncodeFixed(0, 7) == [0, 0, 0] + EncodeFixed(0, 4);
  }
}
