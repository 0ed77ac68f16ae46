/**
 * The write-ahead log: `log::Writer` splits records into fragments that never
 * cross a 32768-byte block, `log::Reader` puts them together again.
 *
 * A file is its bytes. The checksum is a parameter: any function to four
 * bytes stands for the masked CRC the writer stores and the reader recomputes.
 */
module Log {
  import opened InternalKeys
  import opened Coding

  const BLOCK_SIZE: nat := 32768
  const HEADER_SIZE: nat := 7

  const ZERO_TYPE: byte := 0
  const FULL_TYPE: byte := 1
  const FIRST_TYPE: byte := 2
  const MIDDLE_TYPE: byte := 3
  const LAST_TYPE: byte := 4

  type FourBytes = b: Bytes | |b| == 4 witness [0, 0, 0, 0]
  type Checksum = Bytes -> FourBytes

  // ----- what a log holds -----

  datatype Fragment = Fragment(kind: byte, data: Bytes)

  /** A fragment fits the two-byte length and is of one of the four record types. */
  predicate Writable(f: Fragment) {
    FULL_TYPE <= f.kind <= LAST_TYPE && |f.data| <= BLOCK_SIZE - HEADER_SIZE
  }

  /** The physical record: checksum, length, type, payload. */
  function Physical(crc: Checksum, f: Fragment): (b: Bytes)
    requires Writable(f)
    ensures |b| == HEADER_SIZE + |f.data|
  {
    crc([f.kind] + f.data)
      + [(|f.data| % 256) as byte, (|f.data| / 256) as byte, f.kind]
      + f.data
  }

  /** Room left in the block at file position p. */
  function Room(p: nat): (n: nat)
    ensures 0 < n <= BLOCK_SIZE
  {
    BLOCK_SIZE - p % BLOCK_SIZE
  }

  /** Where the first header at or after p starts: a trailer too short for a header is skipped. */
  function Start(p: nat): (s: nat)
    ensures p <= s < p + HEADER_SIZE && Room(s) >= HEADER_SIZE
  {
    if Room(p) < HEADER_SIZE then p + Room(p) else p
  }

  function Zeros(n: nat): (b: Bytes)
    ensures |b| == n
  {
    seq(n, _ => 0)
  }

  /** How much of `data` the next fragment takes when writing is at file position p. */
  function Take(p: nat, data: Bytes): (n: nat)
    ensures n <= |data| && HEADER_SIZE + n <= Room(Start(p))
    ensures n < |data| ==> HEADER_SIZE + n == Room(Start(p))
  {
    var avail := Room(Start(p)) - HEADER_SIZE;
    if |data| < avail then |data| else avail
  }

  function Kind(begin: bool, end: bool): (k: byte)
    ensures FULL_TYPE <= k <= LAST_TYPE
  {
    if begin && end then FULL_TYPE else if begin then FIRST_TYPE else if end then LAST_TYPE else MIDDLE_TYPE
  }

  function First(p: nat, data: Bytes, begin: bool): (f: Fragment)
    ensures Writable(f) && HEADER_SIZE + |f.data| <= Room(Start(p))
  {
    var n := Take(p, data);
    Fragment(Kind(begin, n == |data|), data[..n])
  }

  /** An empty fragment is written only when a header exactly fills the block; the next block has room. */
  function Stalls(p: nat): nat {
    if Room(Start(p)) == HEADER_SIZE then 1 else 0
  }

  /** The fragments of a record whose writing begins at file position p. */
  function Fragments(p: nat, data: Bytes, begin: bool): (fs: seq<Fragment>)
    ensures forall f <- fs :: Writable(f)
    decreases |data|, Stalls(p)
  {
    var n := Take(p, data);
    [First(p, data, begin)]
      + if n == |data| then [] else Fragments(Start(p) + HEADER_SIZE + n, data[n..], false)
  }

  /** Where a fragment written at p ends. */
  function EndOf(p: nat, f: Fragment): nat {
    Start(p) + HEADER_SIZE + |f.data|
  }

  function EndOfAll(p: nat, fs: seq<Fragment>): (e: nat)
    ensures e >= p
    decreases |fs|
  {
    if fs == [] then p else EndOfAll(EndOf(p, fs[0]), fs[1..])
  }

  /** The bytes a fragment adds at p: the trailer it skips, then the physical record. */
  function Padded(crc: Checksum, p: nat, f: Fragment): (b: Bytes)
    requires Writable(f)
    ensures p + |b| == EndOf(p, f)
  {
    Zeros(Start(p) - p) + Physical(crc, f)
  }

  /** The bytes of a fragment list written from file position p on, trailers included. */
  function Laid(crc: Checksum, p: nat, fs: seq<Fragment>): (b: Bytes)
    requires forall f <- fs :: Writable(f)
    ensures p + |b| == EndOfAll(p, fs)
    decreases |fs|
  {
    if fs == [] then []
    else Padded(crc, p, fs[0]) + Laid(crc, EndOf(p, fs[0]), fs[1..])
  }

  /** Every fragment stays within the block its header is in. */
  predicate WithinBlocks(p: nat, fs: seq<Fragment>)
    decreases |fs|
  {
    fs != [] ==>
      HEADER_SIZE + |fs[0].data| <= Room(Start(p)) && WithinBlocks(EndOf(p, fs[0]), fs[1..])
  }

  /** The payloads joined. */
  function Joined(fs: seq<Fragment>): Bytes {
    if fs == [] then [] else fs[0].data + Joined(fs[1..])
  }

  lemma WithinCons(p: nat, f: Fragment, rest: seq<Fragment>)
    requires HEADER_SIZE + |f.data| <= Room(Start(p)) && WithinBlocks(EndOf(p, f), rest)
    ensures WithinBlocks(p, [f] + rest)
  {
    assert ([f] + rest)[1..] == rest;
  }

  /** No physical record crosses a block. */
  lemma {:induction false} FragmentsFit(p: nat, data: Bytes, begin: bool)
    ensures WithinBlocks(p, Fragments(p, data, begin))
    decreases |data|, Stalls(p)
  {
    var n := Take(p, data);
    var f := First(p, data, begin);
    if n < |data| {
      var rest := Fragments(EndOf(p, f), data[n..], false);
      FragmentsFit(EndOf(p, f), data[n..], false);
      WithinCons(p, f, rest);
    } else {
      WithinCons(p, f, []);
    }
  }

  lemma JoinedCons(f: Fragment, rest: seq<Fragment>)
    ensures Joined([f] + rest) == f.data + Joined(rest)
  {
    assert ([f] + rest)[1..] == rest;
  }

  /** The payloads are the record. */
  lemma {:induction false} FragmentsJoin(p: nat, data: Bytes, begin: bool)
    ensures Joined(Fragments(p, data, begin)) == data
    decreases |data|, Stalls(p)
  {
    var n := Take(p, data);
    var next := Start(p) + HEADER_SIZE + n;
    var rest := if n == |data| then [] else Fragments(next, data[n..], false);
    JoinedCons(First(p, data, begin), rest);
    if n < |data| {
      FragmentsJoin(next, data[n..], false);
    }
    assert data == data[..n] + data[n..];
  }

  /** The bytes one record adds to a log of p bytes. */
  function RecordBytes(crc: Checksum, p: nat, data: Bytes): Bytes {
    Laid(crc, p, Fragments(p, data, true))
  }

  /** What a record adds to a log, given the log's length and the record. */
  type Framing = (nat, Bytes) -> Bytes

  function Writes(crc: Checksum): Framing {
    (p: nat, data: Bytes) => RecordBytes(crc, p, data)
  }

  /** A whole log, from position p on. */
  function LogBytes(write: Framing, p: nat, records: seq<Bytes>): Bytes
    decreases |records|
  {
    if records == [] then []
    else
      var b := write(p, records[0]);
      b + LogBytes(write, p + |b|, records[1..])
  }

  lemma TakeProgress(p: nat, data: Bytes)
    ensures var n := Take(p, data);
      n == |data| || n > 0 || Stalls(Start(p) + HEADER_SIZE + n) < Stalls(p)
  {
  }

  lemma LaidCons(crc: Checksum, p: nat, f: Fragment, rest: seq<Fragment>)
    requires Writable(f) && forall g <- rest :: Writable(g)
    ensures Laid(crc, p, [f] + rest) == Padded(crc, p, f) + Laid(crc, EndOf(p, f), rest)
  {
    assert ([f] + rest)[1..] == rest;
  }

  /** What is left to append when `dest` is written and `left` is not. */
  function Pending(crc: Checksum, p: nat, left: Bytes, begin: bool, done: bool): Bytes {
    if done then [] else Laid(crc, p, Fragments(p, left, begin))
  }

  /** One round of the writer's loop. */
  lemma LaidStep(crc: Checksum, p: nat, data: Bytes, begin: bool)
    ensures var n := Take(p, data);
      Pending(crc, p, data, begin, false)
        == Padded(crc, p, First(p, data, begin))
           + Pending(crc, Start(p) + HEADER_SIZE + n, data[n..], false, n == |data|)
  {
    var n := Take(p, data);
    var next := Start(p) + HEADER_SIZE + n;
    var f := First(p, data, begin);
    if n == |data| {
      assert Fragments(p, data, begin) == [f] + [];
      LaidCons(crc, p, f, []);
    } else {
      var rest := Fragments(next, data[n..], false);
      assert Fragments(p, data, begin) == [f] + rest;
      LaidCons(crc, p, f, rest);
    }
  }

  // ----- log::Writer -----

  class LogWriter {
    const crc: Checksum
    var dest: Bytes
    var blockOffset: nat

    predicate Valid()
      reads this
    {
      blockOffset <= BLOCK_SIZE && blockOffset % BLOCK_SIZE == |dest| % BLOCK_SIZE
    }

    /** Opening a file that already holds `contents`. */
    constructor (crc: Checksum, contents: Bytes)
      ensures Valid() && this.crc == crc && dest == contents
    {
      this.crc := crc;
      dest := contents;
      blockOffset := |contents| % BLOCK_SIZE;
    }

    method EmitPhysicalRecord(kind: byte, data: Bytes)
      requires Valid() && FULL_TYPE <= kind <= LAST_TYPE
      requires blockOffset + HEADER_SIZE + |data| <= BLOCK_SIZE
      modifies this
      ensures Valid() && dest == old(dest) + Physical(crc, Fragment(kind, data))
    {
      var header := crc([kind] + data) + [(|data| % 256) as byte, (|data| / 256) as byte, kind];
      dest := dest + header;
      dest := dest + data;
      blockOffset := blockOffset + HEADER_SIZE + |data|;
      assert dest == old(dest) + Physical(crc, Fragment(kind, data));
    }

    /** The loop body up to the record: fill a trailer too short for a header, switch to the next block. */
    method SwitchBlock()
      requires Valid()
      modifies this
      ensures Valid() && dest == old(dest) + Zeros(Start(|old(dest)|) - |old(dest)|)
      ensures blockOffset == BLOCK_SIZE - Room(|dest|)
    {
      var leftover := BLOCK_SIZE - blockOffset;
      if leftover < HEADER_SIZE {
        dest := dest + Zeros(leftover);
        blockOffset := 0;
      }
    }

    /** One round of AddRecord's loop, up to the advance over `left`. */
    method AddFragment(left: Bytes, begin: bool) returns (n: nat)
      requires Valid()
      modifies this
      ensures n == Take(|old(dest)|, left)
      ensures Valid() && dest == old(dest) + Padded(crc, |old(dest)|, First(|old(dest)|, left, begin))
    {
      SwitchBlock();
      var avail := BLOCK_SIZE - blockOffset - HEADER_SIZE;
      n := if |left| < avail then |left| else avail;
      var end := |left| == n;
      var kind := if begin && end then FULL_TYPE else if begin then FIRST_TYPE else if end then LAST_TYPE else MIDDLE_TYPE;
      EmitPhysicalRecord(kind, left[..n]);
    }

    /** One round: what is written and what is pending stay the same together. */
    method Round(left: Bytes, begin: bool) returns (n: nat)
      requires Valid()
      modifies this
      ensures Valid() && n <= |left|
      ensures dest + Pending(crc, |dest|, left[n..], false, n == |left|)
           == old(dest + Pending(crc, |dest|, left, begin, false))
      ensures n == |left| || n > 0 || Stalls(|dest|) < old(Stalls(|dest|))
    {
      LaidStep(crc, |dest|, left, begin);
      TakeProgress(|dest|, left);
      ghost var was, more := dest, Padded(crc, |dest|, First(|dest|, left, begin));
      n := AddFragment(left, begin);
      JoinAssoc(was, more, Pending(crc, |dest|, left[n..], false, n == |left|));
    }

    /** AddRecord: the file grows by exactly the record's bytes. */
    method AddRecord(data: Bytes)
      requires Valid()
      modifies this
      ensures Valid() && dest == old(dest) + RecordBytes(crc, |old(dest)|, data)
    {
      var left, begin, done := data, true, false;
      while !done
        invariant Valid()
        invariant dest + Pending(crc, |dest|, left, begin, done) == old(dest + Pending(crc, |dest|, data, true, false))
        decreases !done, |left|, Stalls(|dest|)
      {
        var n := Round(left, begin);
        left := left[n..];
        begin := false;
        done := |left| == 0;
      }
    }
  }
}
