/**
 * What the log reader returns from a file of any bytes: every record is made of
 * physical records that stand in the file with a matching checksum, in the order
 * and of the types the format allows. Damage can lose records, never invent one.
 */
module LogIntegrity {
  import opened InternalKeys
  import opened Log
  import opened LogReader

  /** A physical record at a place in the file. */
  datatype Piece = Piece(pos: nat, kind: byte, data: Bytes)

  /** Four bytes of checksum over type and data, two of length, one of type, the data; all within one block. */
  ghost predicate Stands(crc: Checksum, file: Bytes, p: Piece) {
    var end := p.pos + 7 + |p.data|;
    && end <= |file|
    && file[p.pos + 4] as nat + 256 * file[p.pos + 5] as nat == |p.data|
    && file[p.pos + 6] == p.kind && file[p.pos + 7..end] == p.data
    && crc(file[p.pos + 6..end]) == file[p.pos..p.pos + 4]
  }

  /** Pieces one behind the other, from `start` up to `end`. */
  ghost predicate InOrder(crc: Checksum, file: Bytes, ps: seq<Piece>, start: nat, end: nat) {
    && (forall i :: 0 <= i < |ps| ==> Stands(crc, file, ps[i]) && start <= ps[i].pos && ps[i].pos + 7 + |ps[i].data| <= end)
    && forall i, j :: 0 <= i < j < |ps| ==> ps[i].pos + 7 + |ps[i].data| <= ps[j].pos
  }

  function Joined(ps: seq<Piece>): Bytes {
    if ps == [] then [] else Joined(ps[..|ps| - 1]) + ps[|ps| - 1].data
  }

  /** A record that is not finished: a first piece, then middle ones. */
  predicate Begun(ps: seq<Piece>) {
    |ps| > 0 && ps[0].kind == 2 && forall i :: 0 < i < |ps| ==> ps[i].kind == 3
  }

  /** A whole record: one full piece, or a first, middle ones and a last. */
  predicate Whole(ps: seq<Piece>) {
    || (|ps| == 1 && ps[0].kind == 1)
    || (|ps| > 1 && Begun(ps[..|ps| - 1]) && ps[|ps| - 1].kind == 4)
  }

  /** The buffer is the part of the file just read, and `Offset` is where it starts. */
  predicate InFile(r: Reader) {
    r.next <= |r.file| && |r.buffer| <= r.next && r.buffer == r.file[r.next - |r.buffer|..r.next]
  }

  function Offset(r: Reader): int {
    r.next - |r.buffer|
  }

  lemma BufferAt(r: Reader, i: nat, j: nat)
    requires InFile(r) && i <= j <= |r.buffer|
    ensures r.buffer[i..j] == r.file[Offset(r) + i..Offset(r) + j]
    ensures forall k: nat :: k < |r.buffer| ==> r.buffer[k] == r.file[Offset(r) + k]
  {
  }

  /** The front of the buffer, when the header's length and checksum are right, is a piece. */
  lemma FrontStands(crc: Checksum, r: Reader, length: nat)
    requires InFile(r) && |r.buffer| >= 7 + length && Length(r.buffer) == length
    requires crc(r.buffer[6..7 + length]) == r.buffer[..4]
    ensures Stands(crc, r.file, Piece(Offset(r), r.buffer[6], r.buffer[7..7 + length]))
  {
    BufferAt(r, 0, 4);
    BufferAt(r, 6, 7 + length);
    BufferAt(r, 7, 7 + length);
  }

  lemma RestInFile(r: Reader, n: nat)
    requires InFile(r) && n <= |r.buffer|
    ensures InFile(r.(buffer := r.buffer[n..])) && Offset(r.(buffer := r.buffer[n..])) == Offset(r) + n
  {
    BufferAt(r, n, |r.buffer|);
  }

  lemma ParsedStands(crc: Checksum, r: Reader)
    requires InFile(r) && |r.buffer| >= HEADER_SIZE
    ensures var (outcome, s) := Parse(crc, r);
      && InFile(s) && s.file == r.file && Offset(s) >= Offset(r)
      && (outcome.Record? ==> Stands(crc, r.file, Piece(Offset(r), outcome.kind, outcome.data))
                              && Offset(s) == Offset(r) + 7 + |outcome.data|)
  {
    var length := Length(r.buffer);
    if Parse(crc, r).0.Record? {
      FrontStands(crc, r, length);
      RestInFile(r, 7 + length);
    }
  }

  lemma {:induction false} PhysicalStands(crc: Checksum, r: Reader) returns (pos: nat)
    requires InFile(r)
    ensures var (outcome, s) := ReadPhysical(crc, r);
      && InFile(s) && s.file == r.file && Offset(s) >= Offset(r)
      && (outcome.Record? ==> Offset(r) <= pos && Stands(crc, r.file, Piece(pos, outcome.kind, outcome.data))
                              && Offset(s) == pos + 7 + |outcome.data|)
    decreases |r.file| - r.next, !r.eof
  {
    if |r.buffer| >= HEADER_SIZE {
      pos := Offset(r);
      ParsedStands(crc, r);
    } else if r.eof {
      pos := 0;
    } else {
      pos := PhysicalStands(crc, Refill(r));
    }
  }

  lemma Extended(crc: Checksum, file: Bytes, ps: seq<Piece>, p: Piece, start: nat, at: nat, end: nat)
    requires InOrder(crc, file, ps, start, at) && Stands(crc, file, p) && at <= p.pos && start <= at && p.pos + 7 + |p.data| <= end
    ensures InOrder(crc, file, ps + [p], start, end) && Joined(ps + [p]) == Joined(ps) + p.data
  {
    assert (ps + [p])[..|ps|] == ps;
  }

  /** `ps` are the pieces behind the scratch. */
  ghost predicate Behind(crc: Checksum, file: Bytes, scratch: Option<Bytes>, ps: seq<Piece>, start: nat, at: nat) {
    && InOrder(crc, file, ps, start, at) && start <= at
    && (scratch.Some? ==> Begun(ps) && Joined(ps) == scratch.value)
  }

  lemma AcceptedBehind(crc: Checksum, file: Bytes, scratch: Option<Bytes>, ps: seq<Piece>, p: Piece, start: nat, at: nat, end: nat)
    returns (ps': seq<Piece>)
    requires Behind(crc, file, scratch, ps, start, at) && Stands(crc, file, p) && at <= p.pos && p.pos + 7 + |p.data| <= end
    ensures var step := Accept(scratch, Record(p.kind, p.data));
      if step.Done? then step.record.Some? && Whole(ps') && InOrder(crc, file, ps', start, end) && Joined(ps') == step.record.value
      else Behind(crc, file, step.scratch, ps', start, end)
  {
    if p.kind == FULL_TYPE || p.kind == FIRST_TYPE {
      AloneBehind(crc, file, p, start, at, end);
      ps' := [p];
    } else if scratch.Some? && (p.kind == MIDDLE_TYPE || p.kind == LAST_TYPE) {
      GrownBehind(crc, file, scratch, ps, p, start, at, end);
      ps' := ps + [p];
    } else {
      ps' := [];
    }
  }

  lemma GrownBehind(crc: Checksum, file: Bytes, scratch: Option<Bytes>, ps: seq<Piece>, p: Piece, start: nat, at: nat, end: nat)
    requires Behind(crc, file, scratch, ps, start, at) && Stands(crc, file, p) && at <= p.pos && p.pos + 7 + |p.data| <= end
    requires scratch.Some? && (p.kind == 3 || p.kind == 4)
    ensures InOrder(crc, file, ps + [p], start, end) && Joined(ps + [p]) == scratch.value + p.data
    ensures if p.kind == 3 then Begun(ps + [p]) else Whole(ps + [p])
  {
    Extended(crc, file, ps, p, start, at, end);
    assert (ps + [p])[..|ps|] == ps;
  }

  lemma AloneBehind(crc: Checksum, file: Bytes, p: Piece, start: nat, at: nat, end: nat)
    requires Stands(crc, file, p) && start <= at <= p.pos && p.pos + 7 + |p.data| <= end
    ensures InOrder(crc, file, [p], start, end) && Joined([p]) == p.data
  {
    assert [p][..0] == [] && Joined([]) == [];
  }

  /** A record, if there is one, is made of these pieces of the file. */
  ghost predicate MadeOf(crc: Checksum, file: Bytes, record: Option<Bytes>, ps: seq<Piece>, start: nat, end: int) {
    record.Some? ==> end >= 0 && Whole(ps) && InOrder(crc, file, ps, start, end) && Joined(ps) == record.value
  }

  /** A record that is returned stands in the file, piece by piece, behind what was read before. */
  lemma {:induction false} ReadRecordStands(crc: Checksum, r: Reader, scratch: Option<Bytes>, ps: seq<Piece>, start: nat) returns (out: seq<Piece>)
    requires InFile(r) && Behind(crc, r.file, scratch, ps, start, Offset(r))
    ensures var (record, s) := ReadFrom(crc, r, scratch);
      InFile(s) && s.file == r.file && Offset(s) >= Offset(r) && MadeOf(crc, r.file, record, out, start, Offset(s))
    decreases Left(r)
  {
    var next := RoundStands(crc, r, scratch, ps, start);
    var (outcome, s) := ReadPhysical(crc, r);
    var step := Accept(scratch, outcome);
    out := next;
    SamePlace(s, s.drops + step.dropped);
    if step.More? {
      out := ReadRecordStands(crc, s.(drops := s.drops + step.dropped), step.scratch, next, start);
    }
  }

  lemma SamePlace(r: Reader, drops: seq<nat>)
    ensures InFile(r.(drops := drops)) <==> InFile(r)
    ensures Offset(r.(drops := drops)) == Offset(r)
  {
  }

  /** One round of the reader's loop. */
  lemma RoundStands(crc: Checksum, r: Reader, scratch: Option<Bytes>, ps: seq<Piece>, start: nat) returns (ps': seq<Piece>)
    requires InFile(r) && Behind(crc, r.file, scratch, ps, start, Offset(r))
    ensures var (outcome, s) := ReadPhysical(crc, r);
      var step := Accept(scratch, outcome);
      && InFile(s) && s.file == r.file && Offset(s) >= Offset(r)
      && (if step.More? then Behind(crc, r.file, step.scratch, ps', start, Offset(s))
          else MadeOf(crc, r.file, step.record, ps', start, Offset(s)))
  {
    var (outcome, s) := ReadPhysical(crc, r);
    var pos := PhysicalStands(crc, r);
    ps' := StepBehind(crc, r.file, scratch, outcome, ps, pos, start, Offset(r), Offset(s));
  }

  /** One outcome, whether a piece or not. */
  lemma StepBehind(crc: Checksum, file: Bytes, scratch: Option<Bytes>, outcome: Outcome, ps: seq<Piece>, pos: nat, start: nat, at: nat, end: nat)
    returns (ps': seq<Piece>)
    requires Behind(crc, file, scratch, ps, start, at) && at <= end
    requires outcome.Record? ==>
      at <= pos && Stands(crc, file, Piece(pos, outcome.kind, outcome.data)) && pos + 7 + |outcome.data| <= end
    ensures var step := Accept(scratch, outcome);
      if step.Done? then MadeOf(crc, file, step.record, ps', start, end)
      else Behind(crc, file, step.scratch, ps', start, end)
  {
    ps' := [];
    if outcome.Record? {
      ps' := AcceptedBehind(crc, file, scratch, ps, Piece(pos, outcome.kind, outcome.data), start, at, end);
    }
  }

  /** The pieces of one record, and where it ends. */
  datatype Found = Found(pieces: seq<Piece>, end: nat)

  ghost predicate StandsAt(crc: Checksum, file: Bytes, record: Bytes, f: Found, start: nat) {
    Whole(f.pieces) && Joined(f.pieces) == record && InOrder(crc, file, f.pieces, start, f.end) && start <= f.end <= |file|
  }

  /** Records that stand in the file one behind the other from `start` on. */
  ghost predicate AllStand(crc: Checksum, file: Bytes, records: seq<Bytes>, found: seq<Found>, start: nat)
    decreases |records|
  {
    if records == [] then found == []
    else
      && found != [] && StandsAt(crc, file, records[0], found[0], start)
      && AllStand(crc, file, records[1..], found[1..], found[0].end)
  }

  lemma AllStandCons(crc: Checksum, file: Bytes, record: Bytes, f: Found, records: seq<Bytes>, found: seq<Found>, start: nat)
    requires StandsAt(crc, file, record, f, start) && AllStand(crc, file, records, found, f.end)
    ensures AllStand(crc, file, [record] + records, [f] + found, start)
  {
    assert ([record] + records)[1..] == records && ([f] + found)[1..] == found;
  }

  lemma {:induction false} ReadAllStands(crc: Checksum, r: Reader) returns (found: seq<Found>)
    requires InFile(r)
    ensures AllStand(crc, r.file, ReadAll(crc, r).0, found, Offset(r))
    decreases Left(r)
  {
    var (record, s) := ReadFrom(crc, r, None);
    var ps := ReadRecordStands(crc, r, None, [], Offset(r));
    if record.None? {
      found := [];
    } else {
      var more := ReadAllStands(crc, s);
      AllStandCons(crc, r.file, record.value, Found(ps, Offset(s)), ReadAll(crc, s).0, more, Offset(r));
      found := [Found(ps, Offset(s))] + more;
    }
  }

  /**
   * From a file of any bytes, the reader returns only records whose pieces stand
   * in the file in order, each with a matching checksum and length, of the types
   * full, or first, middle, last. No byte of the file serves two records.
   */
  lemma NothingIsInvented(crc: Checksum, file: Bytes) returns (found: seq<Found>)
    ensures AllStand(crc, file, ReadAll(crc, Open(file)).0, found, 0)
  {
    found := ReadAllStands(crc, Open(file));
  }

  function Sum(ns: seq<nat>): nat {
    if ns == [] then 0 else Sum(ns[..|ns| - 1]) + ns[|ns| - 1]
  }

  function Size(bytes: Option<Bytes>): nat {
    if bytes.Some? then |bytes.value| else 0
  }

  /**
   * Conservation: in every round of the reader's loop short of the end of file,
   * the bytes gathered so far and those of the piece just read are returned,
   * gathered on, or reported as dropped, each exactly once; nothing is returned
   * for damage, and nothing gathered outlives it.
   */
  lemma NoByteVanishes(scratch: Option<Bytes>, outcome: Outcome)
    requires !outcome.Eof?
    ensures var step := Accept(scratch, outcome);
      var piece := if outcome.Record? then |outcome.data| else 0;
      && Sum(step.dropped) + Size(if step.Done? then step.record else step.scratch) == Size(scratch) + piece
      && (outcome.Bad? || outcome.kind == 0 || outcome.kind > 4 ==> step == More(None, step.dropped))
  {
    var step := Accept(scratch, outcome);
    if step.dropped != [] {
      assert step.dropped[..0] == [];
    }
  }
}
