/**
 * A log the writer produced is read back exactly; cut at any byte, it is read
 * back as its whole records, and nothing is reported as corrupt.
 */
module LogSafety {
  import opened InternalKeys
  import opened Coding
  import opened Log
  import opened LogReader

  /** The reader has consumed the file up to p and holds the rest of p's block. */
  predicate At(r: Reader, p: nat) {
    p <= r.next <= |r.file| && r.buffer == r.file[p..r.next] &&
    if r.eof then r.next == |r.file| && r.next - p <= Room(p)
    else r.next % BLOCK_SIZE == 0 && (r.next == p || r.next == p + Room(p))
  }

  lemma RoomAfter(p: nat, k: nat)
    requires k <= Room(p)
    ensures k < Room(p) ==> Room(p + k) == Room(p) - k
    ensures k == Room(p) ==> Room(p + k) == BLOCK_SIZE
  {
  }

  lemma AtAfter(r: Reader, p: nat, k: nat)
    requires At(r, p) && k <= |r.buffer|
    ensures At(r.(buffer := r.buffer[k..]), p + k)
  {
    if k > 0 {
      RoomAfter(p, k);
    }
  }

  /** Two stretches of one file: what a prefix says about its own tail. */
  lemma PrefixTail(file: Bytes, p: nat, a: Bytes, b: Bytes)
    requires p + |a| <= |file| && file[p..] <= a + b
    ensures file[p + |a|..] <= b
    ensures file[p..p + |a|] == a
  {
    var tail := file[p..];
    assert tail == (a + b)[..|tail|];
    assert file[p + |a|..] == tail[|a|..] == b[..|tail| - |a|];
    assert file[p..p + |a|] == tail[..|a|] == a;
  }

  /** A buffer that starts like a physical record shows its header, and its payload when it is long enough. */
  lemma HeaderShows(crc: Checksum, f: Fragment, buffer: Bytes, rest: Bytes)
    requires Writable(f) && |buffer| >= HEADER_SIZE && buffer <= Physical(crc, f) + rest
    ensures Length(buffer) == |f.data| && buffer[6] == f.kind
    ensures |buffer| >= HEADER_SIZE + |f.data| ==>
        buffer[6..HEADER_SIZE + |f.data|] == [f.kind] + f.data && buffer[HEADER_SIZE..HEADER_SIZE + |f.data|] == f.data
    ensures buffer[..4] == crc([f.kind] + f.data)
  {
    var sum := crc([f.kind] + f.data);
    var all := Physical(crc, f) + rest;
    assert buffer == all[..|buffer|];
    assert buffer[4] == all[4] && buffer[5] == all[5] && buffer[6] == all[6];
    assert buffer[..4] == sum;
    var n := HEADER_SIZE + |f.data|;
    if |buffer| >= n {
      assert buffer[6..n] == all[6..n] == [f.kind] + f.data;
      assert buffer[HEADER_SIZE..n] == all[HEADER_SIZE..n] == f.data;
    }
  }

  /** Reading yields fragment f, which ends at `end`, if the file holds all of it; otherwise end of file. */
  predicate Yields(res: (Outcome, Reader), r: Reader, f: Fragment, end: nat) {
    res.1.drops == r.drops && res.1.file == r.file &&
    if end <= |r.file| then res.0 == Record(f.kind, f.data) && At(res.1, end) else res.0 == Eof
  }

  lemma ParseOne(crc: Checksum, r: Reader, p: nat, f: Fragment, rest: Bytes)
    requires At(r, p) && |r.buffer| >= HEADER_SIZE
    requires Writable(f) && HEADER_SIZE + |f.data| <= Room(p) && r.file[p..] <= Physical(crc, f) + rest
    ensures Yields(Parse(crc, r), r, f, p + HEADER_SIZE + |f.data|)
  {
    HeaderShows(crc, f, r.buffer, rest);
    var n := HEADER_SIZE + |f.data|;
    if n <= |r.buffer| {
      AtAfter(r, p, n);
    }
  }

  /** At a place where a header fits, with the block already in the buffer or the file at its end. */
  lemma ReadHere(crc: Checksum, r: Reader, p: nat, f: Fragment, rest: Bytes)
    requires At(r, p) && (|r.buffer| >= HEADER_SIZE || r.eof)
    requires Writable(f) && HEADER_SIZE + |f.data| <= Room(p) && r.file[p..] <= Physical(crc, f) + rest
    ensures Yields(ReadPhysical(crc, r), r, f, p + HEADER_SIZE + |f.data|)
  {
    if |r.buffer| >= HEADER_SIZE {
      ParseOne(crc, r, p, f, rest);
    }
  }

  /** With less than a header left in the buffer, the next block is where the next header is. */
  lemma RefillAtStart(r: Reader, p: nat)
    requires At(r, p) && !r.eof && |r.buffer| < HEADER_SIZE
    ensures r.next == Start(p) && At(Refill(r), Start(p))
    ensures Refill(r).eof || |Refill(r).buffer| == BLOCK_SIZE
  {
    var s := Refill(r);
    assert Room(r.next) == BLOCK_SIZE;
    assert s.buffer == s.file[r.next..s.next];
    if !s.eof {
      assert s.next == r.next + BLOCK_SIZE;
      assert s.next % BLOCK_SIZE == 0;
    }
  }

  lemma SkipTrailer(crc: Checksum, file: Bytes, p: nat, f: Fragment, rest: Bytes)
    requires Writable(f) && Start(p) <= |file| && file[p..] <= Padded(crc, p, f) + rest
    ensures file[Start(p)..] <= Physical(crc, f) + rest
  {
    JoinAssoc(Zeros(Start(p) - p), Physical(crc, f), rest);
    PrefixTail(file, p, Zeros(Start(p) - p), Physical(crc, f) + rest);
  }

  /** With less than a header buffered, the record is looked for in the next block. */
  lemma ReadInNextBlock(crc: Checksum, r: Reader, p: nat, f: Fragment, rest: Bytes)
    requires At(r, p) && Writable(f) && HEADER_SIZE + |f.data| <= Room(Start(p)) && |r.buffer| < HEADER_SIZE && !r.eof
    requires r.file[p..] <= Padded(crc, p, f) + rest
    ensures Yields(ReadPhysical(crc, r), r, f, EndOf(p, f))
  {
    RefillAtStart(r, p);
    SkipTrailer(crc, r.file, p, f, rest);
    ReadHere(crc, Refill(r), Start(p), f, rest);
  }

  lemma ReadInThisBlock(crc: Checksum, r: Reader, p: nat, f: Fragment, rest: Bytes)
    requires At(r, p) && Writable(f) && HEADER_SIZE + |f.data| <= Room(Start(p)) && |r.buffer| >= HEADER_SIZE
    requires r.file[p..] <= Padded(crc, p, f) + rest
    ensures Yields(ReadPhysical(crc, r), r, f, EndOf(p, f))
  {
    assert Start(p) == p;
    SkipTrailer(crc, r.file, p, f, rest);
    ReadHere(crc, r, p, f, rest);
  }

  lemma ReadTooFar(crc: Checksum, r: Reader, p: nat, f: Fragment)
    requires At(r, p) && |r.buffer| < HEADER_SIZE && r.eof
    ensures Yields(ReadPhysical(crc, r), r, f, EndOf(p, f))
  {
  }

  /** One physical record: returned if the file holds all of it, otherwise end of file. */
  lemma ReadOne(crc: Checksum, r: Reader, p: nat, f: Fragment, rest: Bytes)
    requires At(r, p) && Writable(f) && HEADER_SIZE + |f.data| <= Room(Start(p))
    requires r.file[p..] <= Padded(crc, p, f) + rest
    ensures Yields(ReadPhysical(crc, r), r, f, EndOf(p, f))
  {
    if |r.buffer| >= HEADER_SIZE {
      ReadInThisBlock(crc, r, p, f, rest);
    } else if r.eof {
      ReadTooFar(crc, r, p, f);
    } else {
      ReadInNextBlock(crc, r, p, f, rest);
    }
  }

  lemma ReadAtEnd(crc: Checksum, r: Reader, p: nat)
    requires At(r, p) && p == |r.file|
    ensures ReadPhysical(crc, r).0 == Eof && ReadPhysical(crc, r).1.drops == r.drops
  {
  }

  /** ReadRecord finishes the record `data`, which ends at `end`, if the file holds all of it; otherwise end of file. */
  predicate Finishes(res: (Option<Bytes>, Reader), r: Reader, data: Bytes, end: nat) {
    res.1.drops == r.drops && res.1.file == r.file &&
    if end <= |r.file| then res.0 == Some(data) && At(res.1, end) else res.0 == None
  }

  function Scratch(begin: bool, acc: Bytes): Option<Bytes> {
    if begin then None else Some(acc)
  }

  lemma AcceptPiece(p: nat, data: Bytes, begin: bool, acc: Bytes)
    requires begin ==> acc == []
    ensures var n, f := Take(p, data), First(p, data, begin);
      Accept(Scratch(begin, acc), Record(f.kind, f.data))
        == if n == |data| then Done(Some(acc + data), []) else More(Some(acc + data[..n]), [])
  {
    var n := Take(p, data);
    assert n == |data| ==> data[..n] == data;
    assert begin ==> acc + data == data && acc + data[..n] == data[..n];
  }

  /** What ReadFrom does after one physical record. */
  lemma ReadFromStep(crc: Checksum, r: Reader, scratch: Option<Bytes>, s: Reader, outcome: Outcome)
    requires r.next <= |r.file| && ReadPhysical(crc, r) == (outcome, s)
    requires Accept(scratch, outcome).dropped == []
    ensures var step := Accept(scratch, outcome);
      ReadFrom(crc, r, scratch) == if step.Done? then (step.record, s) else ReadFrom(crc, s, step.scratch)
  {
    assert s.(drops := s.drops + []) == s;
  }

  /** One piece of a record: end of file, or the record, or on to the next piece. */
  lemma ReadPiece(crc: Checksum, r: Reader, p: nat, data: Bytes, begin: bool, acc: Bytes, rest: Bytes)
    requires At(r, p) && (begin ==> acc == [])
    requires r.file[p..] <= Padded(crc, p, First(p, data, begin)) + rest
    ensures var n, f := Take(p, data), First(p, data, begin);
      var s := ReadPhysical(crc, r).1;
      var res := ReadFrom(crc, r, Scratch(begin, acc));
      s.drops == r.drops && s.file == r.file &&
      if EndOf(p, f) > |r.file| then res == (None, s)
      else At(s, EndOf(p, f)) && res == if n == |data| then (Some(acc + data), s) else ReadFrom(crc, s, Some(acc + data[..n]))
  {
    var f := First(p, data, begin);
    ReadOne(crc, r, p, f, rest);
    var (outcome, s) := ReadPhysical(crc, r);
    AcceptPiece(p, data, begin, acc);
    ReadFromStep(crc, r, Scratch(begin, acc), s, outcome);
  }

  lemma SplitPending(crc: Checksum, file: Bytes, p: nat, data: Bytes, begin: bool, rest: Bytes)
    requires p <= |file| && file[p..] <= Pending(crc, p, data, begin, false) + rest
    ensures var n, f := Take(p, data), First(p, data, begin);
      var more := Pending(crc, EndOf(p, f), data[n..], false, n == |data|);
      file[p..] <= Padded(crc, p, f) + (more + rest) &&
      p + |Pending(crc, p, data, begin, false)| == EndOf(p, f) + |more| &&
      (EndOf(p, f) <= |file| ==> file[EndOf(p, f)..] <= more + rest)
  {
    var n, f := Take(p, data), First(p, data, begin);
    var next, here := EndOf(p, f), Padded(crc, p, f);
    var more := Pending(crc, next, data[n..], false, n == |data|);
    LaidStep(crc, p, data, begin);
    JoinAssoc(here, more, rest);
    if next <= |file| {
      PrefixTail(file, p, here, more + rest);
    }
  }

  lemma SplitAt(acc: Bytes, data: Bytes, n: nat)
    requires n <= |data|
    ensures acc + data == acc + data[..n] + data[n..]
  {
    assert data == data[..n] + data[n..];
  }

  lemma Progress(p: nat, data: Bytes, begin: bool)
    ensures var n := Take(p, data);
      n == |data| || n > 0 || Stalls(EndOf(p, First(p, data, begin))) < Stalls(p)
  {
    TakeProgress(p, data);
  }

  /** ReadRecord's loop from some point on, as a function of where it stands. */
  type Loop = (Reader, Option<Bytes>) -> (Option<Bytes>, Reader)

  function LoopOf(crc: Checksum): Loop {
    (r: Reader, scratch: Option<Bytes>) => if r.next <= |r.file| then ReadFrom(crc, r, scratch) else (None, r)
  }

  /** Where the loop stands at the first piece of `data`, written at p. */
  predicate BeforePiece(crc: Checksum, r: Reader, p: nat, data: Bytes, begin: bool, acc: Bytes, rest: Bytes) {
    At(r, p) && (begin ==> acc == []) && r.file[p..] <= Padded(crc, p, First(p, data, begin)) + rest
  }

  /** What the loop does with that piece; s is the reader after it. */
  predicate TakesPiece(loop: Loop, r: Reader, s: Reader, p: nat, data: Bytes, begin: bool, acc: Bytes) {
    var n, end := Take(p, data), EndOf(p, First(p, data, begin));
    && s.drops == r.drops && s.file == r.file
    && if end > |r.file| then loop(r, Scratch(begin, acc)) == (None, s)
       else At(s, end) && loop(r, Scratch(begin, acc)) == if n == |data| then (Some(acc + data), s) else loop(s, Some(acc + data[..n]))
  }

  ghost predicate TakesPieces(crc: Checksum, loop: Loop) {
    forall r: Reader, p: nat, data: Bytes, begin: bool, acc: Bytes, rest: Bytes | BeforePiece(crc, r, p, data, begin, acc, rest) ::
      exists s :: TakesPiece(loop, r, s, p, data, begin, acc)
  }

  lemma LoopTakesPiece(crc: Checksum, r: Reader, p: nat, data: Bytes, begin: bool, acc: Bytes, rest: Bytes)
    requires BeforePiece(crc, r, p, data, begin, acc, rest)
    ensures TakesPiece(LoopOf(crc), r, ReadPhysical(crc, r).1, p, data, begin, acc)
  {
    ReadPiece(crc, r, p, data, begin, acc, rest);
  }

  lemma LoopTakesPieces(crc: Checksum)
    ensures TakesPieces(crc, LoopOf(crc))
  {
    forall r: Reader, p: nat, data: Bytes, begin: bool, acc: Bytes, rest: Bytes | BeforePiece(crc, r, p, data, begin, acc, rest)
      ensures exists s :: TakesPiece(LoopOf(crc), r, s, p, data, begin, acc)
    {
      LoopTakesPiece(crc, r, p, data, begin, acc, rest);
    }
  }

  lemma PieceGoesOn(loop: Loop, r: Reader, s: Reader, p: nat, data: Bytes, begin: bool, acc: Bytes, end: nat)
    requires TakesPiece(loop, r, s, p, data, begin, acc)
    requires var n := Take(p, data);
      n < |data| && EndOf(p, First(p, data, begin)) <= |r.file| && Finishes(loop(s, Some(acc + data[..n])), s, acc + data, end)
    ensures Finishes(loop(r, Scratch(begin, acc)), r, acc + data, end)
  {
  }

  lemma PieceEnds(loop: Loop, r: Reader, s: Reader, p: nat, data: Bytes, begin: bool, acc: Bytes, end: nat, more: nat)
    requires TakesPiece(loop, r, s, p, data, begin, acc)
    requires var n, next := Take(p, data), EndOf(p, First(p, data, begin));
      (n == |data| || next > |r.file|) && end == next + more && (n == |data| ==> more == 0)
    ensures Finishes(loop(r, Scratch(begin, acc)), r, acc + data, end)
  {
  }

  /** What is left to write of a record gets less with every piece. */
  function Rank(p: nat, data: Bytes): nat {
    2 * |data| + Stalls(p)
  }

  /** The record `data`, written at p, comes out of the loop as it should. */
  ghost predicate ComesOut(crc: Checksum, loop: Loop, r: Reader, p: nat, data: Bytes, begin: bool, acc: Bytes) {
    Finishes(loop(r, Scratch(begin, acc)), r, acc + data, p + |Pending(crc, p, data, begin, false)|)
  }

  ghost predicate Before(crc: Checksum, r: Reader, p: nat, data: Bytes, begin: bool, acc: Bytes, rest: Bytes) {
    At(r, p) && (begin ==> acc == []) && r.file[p..] <= Pending(crc, p, data, begin, false) + rest
  }

  /** After a piece that is not the last, the question is the same for the rest of the record. */
  lemma NextPiece(crc: Checksum, loop: Loop, r: Reader, s: Reader, p: nat, data: Bytes, begin: bool, acc: Bytes, rest: Bytes)
    requires Before(crc, r, p, data, begin, acc, rest) && TakesPiece(loop, r, s, p, data, begin, acc)
    requires Take(p, data) < |data| && EndOf(p, First(p, data, begin)) <= |r.file|
    ensures var n, next := Take(p, data), EndOf(p, First(p, data, begin));
      Before(crc, s, next, data[n..], false, acc + data[..n], rest) && Rank(next, data[n..]) < Rank(p, data)
  {
    SplitPending(crc, r.file, p, data, begin, rest);
    Progress(p, data, begin);
  }

  lemma RestComesOut(crc: Checksum, loop: Loop, r: Reader, s: Reader, p: nat, data: Bytes, begin: bool, acc: Bytes, n: nat, next: nat)
    requires TakesPiece(loop, r, s, p, data, begin, acc) && n == Take(p, data) && next == EndOf(p, First(p, data, begin))
    requires n < |data| && next <= |r.file|
    requires ComesOut(crc, loop, s, next, data[n..], false, acc + data[..n])
    requires p + |Pending(crc, p, data, begin, false)| == next + |Pending(crc, next, data[n..], false, false)|
    ensures ComesOut(crc, loop, r, p, data, begin, acc)
  {
    SplitAt(acc, data, n);
    PieceGoesOn(loop, r, s, p, data, begin, acc, next + |Pending(crc, next, data[n..], false, false)|);
  }

  lemma LastPiece(crc: Checksum, loop: Loop, r: Reader, s: Reader, p: nat, data: Bytes, begin: bool, acc: Bytes, rest: Bytes)
    requires Before(crc, r, p, data, begin, acc, rest) && TakesPiece(loop, r, s, p, data, begin, acc)
    requires Take(p, data) == |data| || EndOf(p, First(p, data, begin)) > |r.file|
    ensures ComesOut(crc, loop, r, p, data, begin, acc)
  {
    var n, next := Take(p, data), EndOf(p, First(p, data, begin));
    SplitPending(crc, r.file, p, data, begin, rest);
    PieceEnds(loop, r, s, p, data, begin, acc, p + |Pending(crc, p, data, begin, false)|,
              |Pending(crc, next, data[n..], false, n == |data|)|);
  }

  lemma PieceIsTaken(crc: Checksum, loop: Loop, r: Reader, p: nat, data: Bytes, begin: bool, acc: Bytes, rest: Bytes)
    requires TakesPieces(crc, loop) && Before(crc, r, p, data, begin, acc, rest)
    ensures exists s :: TakesPiece(loop, r, s, p, data, begin, acc)
  {
    var n, next := Take(p, data), EndOf(p, First(p, data, begin));
    SplitPending(crc, r.file, p, data, begin, rest);
    assert BeforePiece(crc, r, p, data, begin, acc, Pending(crc, next, data[n..], false, n == |data|) + rest);
  }

  /** The rest of a record, begun with `acc` in the scratch. */
  lemma {:induction false} ReadPieces(crc: Checksum, loop: Loop, r: Reader, p: nat, data: Bytes, begin: bool, acc: Bytes, rest: Bytes)
    requires TakesPieces(crc, loop) && Before(crc, r, p, data, begin, acc, rest)
    ensures ComesOut(crc, loop, r, p, data, begin, acc)
    decreases Rank(p, data)
  {
    PieceIsTaken(crc, loop, r, p, data, begin, acc, rest);
    var s :| TakesPiece(loop, r, s, p, data, begin, acc);
    if Take(p, data) == |data| || EndOf(p, First(p, data, begin)) > |r.file| {
      LastPiece(crc, loop, r, s, p, data, begin, acc, rest);
    } else {
      NextPiece(crc, loop, r, s, p, data, begin, acc, rest);
      var n, next := Take(p, data), EndOf(p, First(p, data, begin));
      ReadPieces(crc, loop, s, next, data[n..], false, acc + data[..n], rest);
      SplitPending(crc, r.file, p, data, begin, rest);
      RestComesOut(crc, loop, r, s, p, data, begin, acc, n, next);
    }
  }

  // ----- whole logs -----

  /** How many of the records, written from p on, end at or before `limit`. */
  function Whole(write: Framing, p: nat, records: seq<Bytes>, limit: nat): (k: nat)
    ensures k <= |records|
    decreases |records|
  {
    if records == [] then 0
    else
      var next := p + |write(p, records[0])|;
      if next > limit then 0 else 1 + Whole(write, next, records[1..], limit)
  }

  lemma {:induction false} LogSplit(write: Framing, p: nat, a: seq<Bytes>, b: seq<Bytes>)
    ensures LogBytes(write, p, a + b) == LogBytes(write, p, a) + LogBytes(write, p + |LogBytes(write, p, a)|, b)
    decreases |a|
  {
    if a == [] {
      assert a + b == b;
    } else {
      var here := write(p, a[0]);
      LogSplit(write, p + |here|, a[1..], b);
      assert (a + b)[1..] == a[1..] + b;
      JoinAssoc(here, LogBytes(write, p + |here|, a[1..]), LogBytes(write, p + |LogBytes(write, p, a)|, b));
    }
  }

  lemma OneRecord(write: Framing, p: nat, one: seq<Bytes>)
    requires |one| == 1
    ensures LogBytes(write, p, one) == write(p, one[0])
  {
    assert one[1..] == [];
    assert write(p, one[0]) + [] == write(p, one[0]);
  }

  /** A log grows by AddRecord as by one more record, also when the writer reopens it at its length. */
  lemma LogGrows(write: Framing, p: nat, records: seq<Bytes>, data: Bytes)
    ensures LogBytes(write, p, records + [data]) == LogBytes(write, p, records) + write(p + |LogBytes(write, p, records)|, data)
  {
    LogSplit(write, p, records, [data]);
    OneRecord(write, p + |LogBytes(write, p, records)|, [data]);
  }

  lemma LogOfPrefix(write: Framing, p: nat, records: seq<Bytes>, k: nat)
    requires 0 < k <= |records|
    ensures var b := write(p, records[0]);
      |LogBytes(write, p, records[..k])| == |b| + |LogBytes(write, p + |b|, records[1..][..k - 1])|
  {
    assert records[..k][1..] == records[1..][..k - 1];
  }

  lemma WholeStep(write: Framing, p: nat, records: seq<Bytes>, limit: nat)
    requires records != []
    ensures var next := p + |write(p, records[0])|;
      records[..Whole(write, p, records, limit)] ==
        if next > limit then [] else [records[0]] + records[1..][..Whole(write, next, records[1..], limit)]
  {
    var next := p + |write(p, records[0])|;
    var k := Whole(write, next, records[1..], limit);
    assert records[..k + 1] == [records[0]] + records[1..][..k];
  }

  lemma {:induction false} WholeIsExact(write: Framing, p: nat, records: seq<Bytes>, limit: nat)
    requires p <= limit
    ensures var k := Whole(write, p, records, limit);
      p + |LogBytes(write, p, records[..k])| <= limit &&
      (k < |records| ==> p + |LogBytes(write, p, records[..k + 1])| > limit)
    decreases |records|
  {
    if records != [] {
      var k := Whole(write, p, records, limit);
      var next := p + |write(p, records[0])|;
      if k < |records| {
        LogOfPrefix(write, p, records, k + 1);
      }
      if next <= limit {
        LogOfPrefix(write, p, records, k);
        WholeIsExact(write, next, records[1..], limit);
      }
    }
  }

  lemma PendingRecord(crc: Checksum, p: nat, data: Bytes)
    ensures Pending(crc, p, data, true, false) == Writes(crc)(p, data)
  {
  }

  lemma LoopIsRead(crc: Checksum, r: Reader)
    requires r.next <= |r.file|
    ensures LoopOf(crc)(r, None) == ReadFrom(crc, r, None)
  {
  }

  lemma NothingBefore(res: (Option<Bytes>, Reader), r: Reader, data: Bytes, end: nat)
    requires Finishes(res, r, [] + data, end)
    ensures Finishes(res, r, data, end)
  {
    assert [] + data == data;
  }

  lemma OutIsRead(loop: Loop, r: Reader, data: Bytes, end: nat, res: (Option<Bytes>, Reader))
    requires Finishes(res, r, [] + data, end) && res == loop(r, Scratch(true, []))
    ensures Finishes(loop(r, None), r, data, end)
  {
    NothingBefore(res, r, data, end);
    assert Scratch(true, []) == None;
  }

  lemma BeforeRecord(crc: Checksum, r: Reader, p: nat, data: Bytes, b: Bytes, rest: Bytes)
    requires At(r, p) && b == Pending(crc, p, data, true, false) && r.file[p..] <= b + rest
    ensures Before(crc, r, p, data, true, [], rest)
  {
  }

  lemma RecordEnds(crc: Checksum, loop: Loop, r: Reader, p: nat, data: Bytes, b: Bytes)
    requires b == Pending(crc, p, data, true, false) && ComesOut(crc, loop, r, p, data, true, [])
    ensures Finishes(loop(r, None), r, data, p + |b|)
  {
    OutIsRead(loop, r, data, p + |b|, loop(r, Scratch(true, [])));
  }

  /** One record at p, whose bytes are b: read if the file holds all of it. */
  lemma ReadRecordAt(crc: Checksum, loop: Loop, r: Reader, p: nat, data: Bytes, b: Bytes, rest: Bytes)
    requires TakesPieces(crc, loop) && At(r, p) && b == Pending(crc, p, data, true, false) && r.file[p..] <= b + rest
    ensures Finishes(loop(r, None), r, data, p + |b|)
  {
    BeforeRecord(crc, r, p, data, b, rest);
    ReadPieces(crc, loop, r, p, data, true, [], rest);
    RecordEnds(crc, loop, r, p, data, b);
  }

  /** If the file continues at p with what `write` lays down for `data`, the loop takes it back. */
  predicate TakesBack(loop: Loop, write: Framing, r: Reader, p: nat, data: Bytes, rest: Bytes) {
    At(r, p) && r.file[p..] <= write(p, data) + rest ==>
      Finishes(loop(r, None), r, data, p + |write(p, data)|)
  }

  /** The reader takes back what `write` lays down, one record at a time. */
  ghost predicate ReadsBack(crc: Checksum, write: Framing) {
    forall r: Reader, p: nat, data: Bytes, rest: Bytes :: TakesBack(LoopOf(crc), write, r, p, data, rest)
  }

  lemma WriterTakesBack(crc: Checksum, loop: Loop, write: Framing, r: Reader, p: nat, data: Bytes, rest: Bytes)
    requires TakesPieces(crc, loop) && write(p, data) == Pending(crc, p, data, true, false)
    ensures TakesBack(loop, write, r, p, data, rest)
  {
    if At(r, p) && r.file[p..] <= write(p, data) + rest {
      ReadRecordAt(crc, loop, r, p, data, write(p, data), rest);
    }
  }

  lemma WriterReadsBack(crc: Checksum)
    ensures ReadsBack(crc, Writes(crc))
  {
    LoopTakesPieces(crc);
    forall r: Reader, p: nat, data: Bytes, rest: Bytes ensures TakesBack(LoopOf(crc), Writes(crc), r, p, data, rest) {
      PendingRecord(crc, p, data);
      WriterTakesBack(crc, LoopOf(crc), Writes(crc), r, p, data, rest);
    }
  }

  /** The first of the records written from p on. */
  lemma ReadFirst(crc: Checksum, write: Framing, r: Reader, p: nat, records: seq<Bytes>)
    requires ReadsBack(crc, write) && At(r, p) && records != [] && r.file[p..] <= LogBytes(write, p, records)
    ensures var next := p + |write(p, records[0])|;
      Finishes(ReadFrom(crc, r, None), r, records[0], next) &&
      (next <= |r.file| ==> r.file[next..] <= LogBytes(write, next, records[1..]))
  {
    var b := write(p, records[0]);
    var next := p + |b|;
    var more := LogBytes(write, next, records[1..]);
    assert TakesBack(LoopOf(crc), write, r, p, records[0], more);
    LoopIsRead(crc, r);
    if next <= |r.file| {
      PrefixTail(r.file, p, b, more);
    }
  }

  lemma ReadRecordAtEnd(crc: Checksum, r: Reader, p: nat)
    requires At(r, p) && p == |r.file|
    ensures var (record, s) := ReadFrom(crc, r, None);
      record == None && s.drops == r.drops
  {
    ReadAtEnd(crc, r, p);
    ReadFromStep(crc, r, None, ReadPhysical(crc, r).1, Eof);
  }

  /** ReadAll after its first ReadRecord. */
  lemma ReadAllStep(crc: Checksum, r: Reader, record: Option<Bytes>, s: Reader)
    requires r.next <= |r.file| && ReadFrom(crc, r, None) == (record, s)
    ensures ReadAll(crc, r) ==
        if record.None? then ([], s) else ([record.value] + ReadAll(crc, s).0, ReadAll(crc, s).1)
  {
  }

  /** Reading on from s gives `got` and reports nothing new. */
  predicate ReadsOn(res: (seq<Bytes>, Reader), s: Reader, got: seq<Bytes>) {
    res.0 == got && res.1.drops == s.drops
  }

  lemma {:induction false} ReadRecords(crc: Checksum, write: Framing, r: Reader, p: nat, records: seq<Bytes>)
    requires ReadsBack(crc, write) && At(r, p) && r.file[p..] <= LogBytes(write, p, records)
    ensures ReadsOn(ReadAll(crc, r), r, records[..Whole(write, p, records, |r.file|)])
    decreases |records|
  {
    if records == [] {
      ReadRecordAtEnd(crc, r, p);
      ReadAllStep(crc, r, None, ReadFrom(crc, r, None).1);
    } else {
      WholeStep(write, p, records, |r.file|);
      ReadFirst(crc, write, r, p, records);
      var next := p + |write(p, records[0])|;
      var s := ReadFrom(crc, r, None).1;
      if next <= |r.file| {
        ReadRecords(crc, write, s, next, records[1..]);
        ReadsOneMore(crc, r, s, records[0], records[1..][..Whole(write, next, records[1..], |r.file|)]);
      } else {
        ReadAllStep(crc, r, None, s);
      }
    }
  }

  lemma ReadsOneMore(crc: Checksum, r: Reader, s: Reader, record: Bytes, got: seq<Bytes>)
    requires r.next <= |r.file| && s.next <= |s.file| && ReadFrom(crc, r, None) == (Some(record), s) && s.drops == r.drops
    requires ReadsOn(ReadAll(crc, s), s, got)
    ensures ReadsOn(ReadAll(crc, r), r, [record] + got)
  {
    ReadAllStep(crc, r, Some(record), s);
  }

  /**
   * Crash safety: a log cut at any byte is read as exactly the records that are
   * whole in it, in order, and nothing is reported as corrupt.
   */
  lemma CutLogReadsWholeRecords(crc: Checksum, records: seq<Bytes>, n: nat)
    requires n <= |LogBytes(Writes(crc), 0, records)|
    ensures var write := Writes(crc);
      var (got, r) := ReadAll(crc, Open(LogBytes(write, 0, records)[..n]));
      r.drops == [] && got <= records &&
      |LogBytes(write, 0, got)| <= n &&
      (|got| < |records| ==> |LogBytes(write, 0, records[..|got| + 1])| > n)
  {
    var write := Writes(crc);
    var file := LogBytes(write, 0, records)[..n];
    WriterReadsBack(crc);
    ReadRecords(crc, write, Open(file), 0, records);
    WholeIsExact(write, 0, records, n);
  }

  lemma LogPrefixShorter(write: Framing, records: seq<Bytes>, k: nat)
    requires k <= |records|
    ensures |LogBytes(write, 0, records[..k])| <= |LogBytes(write, 0, records)|
  {
    LogSplit(write, 0, records[..k], records[k..]);
    assert records[..k] + records[k..] == records;
  }

  /** Round trip: an uncut log gives back every record, then end of file. */
  lemma LogRoundTrip(crc: Checksum, records: seq<Bytes>)
    ensures var (got, r) := ReadAll(crc, Open(LogBytes(Writes(crc), 0, records)));
      got == records && r.drops == []
  {
    var log := LogBytes(Writes(crc), 0, records);
    assert log[..|log|] == log;
    CutLogReadsWholeRecords(crc, records, |log|);
    var got := ReadAll(crc, Open(log)).0;
    if |got| < |records| {
      LogPrefixShorter(Writes(crc), records, |got| + 1);
    }
  }
}
