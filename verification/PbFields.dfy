/**
 * Finding fields and counting the required ones: the iterator that goes round a
 * descriptor array, and the two words in which the decoder marks the required
 * fields it has met (pb_common.c, pb_decode.c).
 */
module PbFields {
  import opened InternalKeys
  import opened PbSchema

  // ----- positions in a descriptor array -----

  /** The first field with a tag. */
  function Find(s: Schema, tag: nat): (r: Option<nat>)
    ensures r.Some? ==> r.value < Len(s) && FieldAt(s, r.value).tag == tag
    ensures r.Some? ==> forall j :: 0 <= j < r.value ==> FieldAt(s, j).tag != tag
    ensures r.None? ==> forall j :: 0 <= j < Len(s) ==> FieldAt(s, j).tag != tag
  {
    if s.End? then None
    else if s.first.tag == tag then Some(0)
    else
      var r := Find(s.rest, tag);
      if r.Some? then Some(r.value + 1) else None
  }

  /** How many required fields come before field i. */
  function RequiredIndex(s: Schema, i: nat): nat
    requires i <= Len(s)
  {
    if i == 0 then 0 else (if s.first.rule.Required? then 1 else 0) + RequiredIndex(s.rest, i - 1)
  }

  lemma {:induction false} RequiredNext(s: Schema, i: nat)
    requires i < Len(s)
    ensures RequiredIndex(s, i + 1) == RequiredIndex(s, i) + if FieldAt(s, i).rule.Required? then 1 else 0
  {
    if i > 0 {
      RequiredNext(s.rest, i - 1);
    }
  }

  lemma {:induction false} RequiredGrows(s: Schema, i: nat, j: nat)
    requires i <= j <= Len(s)
    ensures RequiredIndex(s, i) <= RequiredIndex(s, j)
    decreases j - i
  {
    if i < j {
      RequiredNext(s, j - 1);
      RequiredGrows(s, i, j - 1);
    }
  }

  /** The descriptors from field i on. */
  function Drop(s: Schema, i: nat): Schema
    requires i <= Len(s)
  {
    if i == 0 then s else Drop(s.rest, i - 1)
  }

  lemma {:induction false} DropLen(s: Schema, i: nat)
    requires i <= Len(s)
    ensures Len(Drop(s, i)) == Len(s) - i
  {
    if i > 0 {
      DropLen(s.rest, i - 1);
    }
  }

  lemma {:induction false} FieldAtDrop(s: Schema, i: nat, j: nat)
    requires i + j < Len(s)
    ensures j < Len(Drop(s, i)) && FieldAt(Drop(s, i), j) == FieldAt(s, i + j)
  {
    DropLen(s, i);
    if i > 0 {
      FieldAtDrop(s.rest, i - 1, j);
    }
  }

  // ----- the iterator -----

  /** pb_field_iter_t: a position, and the running count of required fields before it. */
  datatype FieldIter = FieldIter(pos: nat, required: nat)

  function At(s: Schema, pos: nat): FieldIter
    requires pos <= Len(s)
  {
    FieldIter(pos, RequiredIndex(s, pos))
  }

  /** The iterator is never on the terminator, except in an empty message. */
  predicate ValidIter(s: Schema, it: FieldIter) {
    (it.pos < Len(s) || (s.End? && it.pos == 0)) && it == At(s, it.pos)
  }

  /** pb_field_iter_begin. */
  method Begin(s: Schema) returns (it: FieldIter, some: bool)
    ensures ValidIter(s, it) && it == At(s, 0) && (some <==> s.Fields?)
  {
    it, some := FieldIter(0, 0), s.Fields?;
  }

  /** pb_field_iter_next: past the last field the iterator is back on the first. */
  method Next(s: Schema, it: FieldIter) returns (next: FieldIter, more: bool)
    requires ValidIter(s, it)
    ensures ValidIter(s, next) && (more <==> it.pos + 1 < Len(s))
    ensures next == At(s, if more then it.pos + 1 else 0)
  {
    if s.End? {
      return it, false;
    }
    if it.pos + 1 == Len(s) {
      var first, _ := Begin(s);
      return first, false;
    }
    RequiredNext(s, it.pos);
    return FieldIter(it.pos + 1, if FieldAt(s, it.pos).rule.Required? then it.required + 1 else it.required), true;
  }

  /** The first field with the tag from `pos` to the end, else the first from the start. */
  function FindFrom(s: Schema, pos: nat, tag: nat): (r: Option<nat>)
    ensures r.Some? ==> r.value < Len(s) && FieldAt(s, r.value).tag == tag
  {
    var ahead := if pos < Len(s) then Find(Drop(s, pos), tag) else None;
    if ahead.Some? then
      DropLen(s, pos);
      FieldAtDrop(s, pos, ahead.value);
      Some(pos + ahead.value)
    else Find(s, tag)
  }

  lemma FindIs(s: Schema, i: nat, tag: nat)
    requires i < Len(s) && FieldAt(s, i).tag == tag && forall j :: 0 <= j < i ==> FieldAt(s, j).tag != tag
    ensures Find(s, tag) == Some(i)
  {
  }

  lemma {:induction false} AheadIs(s: Schema, pos: nat, i: nat, tag: nat)
    requires pos <= i < Len(s) && FieldAt(s, i).tag == tag && forall j :: pos <= j < i ==> FieldAt(s, j).tag != tag
    ensures Find(Drop(s, pos), tag) == Some(i - pos)
  {
    if pos == 0 {
      FindIs(s, i, tag);
    } else {
      forall j | pos - 1 <= j < i - 1 ensures FieldAt(s.rest, j).tag != tag {
        assert FieldAt(s, j + 1).tag != tag;
      }
      AheadIs(s.rest, pos - 1, i - 1, tag);
    }
  }

  lemma NoneAhead(s: Schema, pos: nat, tag: nat)
    requires pos < Len(s) && forall j :: pos <= j < Len(s) ==> FieldAt(s, j).tag != tag
    ensures FindFrom(s, pos, tag) == Find(s, tag)
  {
    var ahead := Find(Drop(s, pos), tag);
    if ahead.Some? {
      DropLen(s, pos);
      FieldAtDrop(s, pos, ahead.value);
    }
  }

  /** With distinct tags the place the search starts from does not matter. */
  lemma FindFromAnywhere(s: Schema, pos: nat, tag: nat)
    requires forall a, b :: 0 <= a < b < Len(s) ==> FieldAt(s, a).tag != FieldAt(s, b).tag
    ensures FindFrom(s, pos, tag) == Find(s, tag)
  {
    var r := FindFrom(s, pos, tag);
    if r.Some? {
      FindIs(s, r.value, tag);
    }
  }

  /** The fields a search from `start` has passed when it stands at `pos`. */
  predicate Passed(start: nat, pos: nat, j: nat) {
    if pos > start then start <= j < pos else j >= start || j < pos
  }

  /** pb_field_iter_find: once round from where the iterator stands; an empty message's terminator has tag 0. */
  method IterFind(s: Schema, start: FieldIter, tag: nat) returns (it: FieldIter, found: bool)
    requires ValidIter(s, start)
    ensures ValidIter(s, it)
    ensures s.End? ==> it == start && (found <==> tag == 0)
    ensures s.Fields? ==> (found <==> FindFrom(s, start.pos, tag).Some?)
    ensures s.Fields? && found ==> it == At(s, FindFrom(s, start.pos, tag).value)
    ensures !found ==> it == start
  {
    it := start;
    if s.End? {
      return it, tag == 0;
    }
    var moved := false;
    while !moved || it.pos != start.pos
      invariant ValidIter(s, it) && (!moved ==> it == start)
      invariant moved ==> forall j: nat :: j < Len(s) && Passed(start.pos, it.pos, j) ==> FieldAt(s, j).tag != tag
      decreases if !moved then Len(s) + 1 else if it.pos > start.pos then Len(s) - it.pos + start.pos else start.pos - it.pos
    {
      if FieldAt(s, it.pos).tag == tag {
        FoundFrom(s, start.pos, it.pos, moved, tag);
        return it, true;
      }
      var next, _ := Next(s, it);
      it, moved := next, true;
    }
    NoneAhead(s, start.pos, tag);
    found := false;
  }

  lemma FoundFrom(s: Schema, start: nat, pos: nat, moved: bool, tag: nat)
    requires start < Len(s) && pos < Len(s) && FieldAt(s, pos).tag == tag && (!moved ==> pos == start) && (moved ==> pos != start)
    requires moved ==> forall j: nat :: j < Len(s) && Passed(start, pos, j) ==> FieldAt(s, j).tag != tag
    ensures FindFrom(s, start, tag) == Some(pos)
  {
    if pos >= start {
      AheadIs(s, start, pos, tag);
    } else {
      FoundBehind(s, start, pos, tag);
    }
  }

  lemma FoundBehind(s: Schema, start: nat, pos: nat, tag: nat)
    requires pos < start < Len(s) && FieldAt(s, pos).tag == tag
    requires forall j: nat :: j < Len(s) && (j >= start || j < pos) ==> FieldAt(s, j).tag != tag
    ensures FindFrom(s, start, tag) == Some(pos)
  {
    NoneAhead(s, start, tag);
    FindIs(s, pos, tag);
  }

  // ----- the words of fields_seen -----

  const MAX_REQUIRED: nat := 64
  const ALL_BITS: nat := 0xFFFF_FFFF

  /** Bit k of a word. */
  predicate BitAt(w: nat, k: nat) {
    if k == 0 then w % 2 == 1 else BitAt(w / 2, k - 1)
  }

  /** w | 1 << k. */
  function OrBit(w: nat, k: nat): nat
    decreases k
  {
    if k == 0 then (if w % 2 == 1 then w else w + 1) else 2 * OrBit(w / 2, k - 1) + w % 2
  }

  /** w >> k. */
  function ShiftRight(w: nat, k: nat): nat
    decreases k
  {
    if k == 0 then w else ShiftRight(w / 2, k - 1)
  }

  /** The word of n ones. */
  function Ones(n: nat): nat {
    if n == 0 then 0 else 2 * Ones(n - 1) + 1
  }

  lemma {:induction false} OrBitSets(w: nat, k: nat, j: nat)
    ensures BitAt(OrBit(w, k), j) <==> j == k || BitAt(w, j)
    decreases k
  {
    if k == 0 {
      if j > 0 && w % 2 == 0 {
        assert (w + 1) / 2 == w / 2;
      }
    } else {
      var r := OrBit(w / 2, k - 1);
      assert (2 * r + w % 2) / 2 == r && (2 * r + w % 2) % 2 == w % 2;
      if j > 0 {
        OrBitSets(w / 2, k - 1, j - 1);
      }
    }
  }

  lemma {:induction false} OnesBits(n: nat, j: nat)
    ensures BitAt(Ones(n), j) <==> j < n
    decreases n
  {
    if n == 0 {
      NoBits(j);
    } else {
      assert (2 * Ones(n - 1) + 1) / 2 == Ones(n - 1);
      if j > 0 {
        OnesBits(n - 1, j - 1);
      }
    }
  }

  lemma {:induction false} NoBits(j: nat)
    ensures !BitAt(0, j)
  {
    if j > 0 {
      NoBits(j - 1);
    }
  }

  lemma {:induction false} OnesShifted(n: nat, k: nat)
    requires k <= n
    ensures ShiftRight(Ones(n), k) == Ones(n - k)
    decreases k
  {
    if k > 0 {
      assert Ones(n) / 2 == Ones(n - 1);
      OnesShifted(n - 1, k - 1);
    }
  }

  lemma AllBitsAreOnes()
    ensures ALL_BITS == Ones(32)
  {
    assert Ones(8) == 255;
    assert Ones(16) == 65535;
    assert Ones(24) == 0xFF_FFFF;
  }

  /** Words with the same bits are the same. */
  lemma {:induction false} SameBits(a: nat, b: nat)
    requires forall j: nat :: BitAt(a, j) <==> BitAt(b, j)
    ensures a == b
    decreases a + b
  {
    assert BitAt(a, 0) <==> BitAt(b, 0);
    if a > 0 || b > 0 {
      forall j: nat ensures BitAt(a / 2, j) <==> BitAt(b / 2, j) {
        assert BitAt(a, j + 1) <==> BitAt(b, j + 1);
      }
      SameBits(a / 2, b / 2);
    }
  }

  /** The n low bits are set. */
  ghost predicate LowSet(w: nat, n: nat) {
    forall j: nat | j < n :: BitAt(w, j)
  }

  lemma IsOnes(w: nat, n: nat)
    requires forall j: nat :: BitAt(w, j) ==> j < n
    ensures w == Ones(n) <==> LowSet(w, n)
  {
    forall j: nat ensures BitAt(Ones(n), j) <==> j < n {
      OnesBits(n, j);
    }
    if LowSet(w, n) {
      forall j: nat ensures BitAt(w, j) <==> BitAt(Ones(n), j) {
      }
      SameBits(w, Ones(n));
    }
  }

  /** uint32_t fields_seen[2]. */
  type Words = w: seq<nat> | |w| == 2 witness [0, 0]

  predicate Seen(words: Words, i: nat)
    requires i < MAX_REQUIRED
  {
    BitAt(words[i / 32], i % 32)
  }

  /** fields_seen[i >> 5] |= 1 << (i & 31). */
  function Marked(words: Words, i: nat): (r: Words)
    requires i < MAX_REQUIRED
  {
    words[i / 32 := OrBit(words[i / 32], i % 32)]
  }

  /** Two 32-bit words with no mark from index n on. */
  ghost predicate Within(words: Words, n: nat) {
    && (forall k, j: nat :: 0 <= k < 2 && BitAt(words[k], j) ==> j < 32)
    && forall i: nat :: i < MAX_REQUIRED && Seen(words, i) ==> i < n
  }

  lemma MarkedSees(words: Words, i: nat, j: nat)
    requires i < MAX_REQUIRED && j < MAX_REQUIRED
    ensures Seen(Marked(words, i), j) <==> j == i || Seen(words, j)
  {
    OrBitSets(words[i / 32], i % 32, j % 32);
  }

  lemma MarkedWithin(words: Words, i: nat, n: nat)
    requires Within(words, n) && i < MAX_REQUIRED && i < n
    ensures Within(Marked(words, i), n)
  {
    forall k, j: nat | 0 <= k < 2 && BitAt(Marked(words, i)[k], j) ensures j < 32 {
      OrBitSets(words[i / 32], i % 32, j);
    }
    forall j: nat | j < MAX_REQUIRED && Seen(Marked(words, i), j) ensures j < n {
      MarkedSees(words, i, j);
    }
  }

  function Capped(count: nat): nat {
    if count > MAX_REQUIRED then MAX_REQUIRED else count
  }

  /** The comparisons after the loop: whole words, then the remaining bits of the last one. */
  predicate Compared(words: Words, count: nat)
  {
    var n := Capped(count);
    && (forall k :: 0 <= k < n / 32 ==> words[k] == ALL_BITS)
    && (n % 32 != 0 ==> words[n / 32] == ShiftRight(ALL_BITS, 32 - n % 32))
  }

  /** pb_decode_noinit's check of the words. */
  method CompareWords(words: Words, count: nat) returns (ok: bool)
    ensures ok == Compared(words, count)
  {
    var n := count;
    if n > MAX_REQUIRED {
      n := MAX_REQUIRED;
    }
    for k := 0 to n / 32
      invariant forall m :: 0 <= m < k ==> words[m] == ALL_BITS
    {
      if words[k] != ALL_BITS {
        return false;
      }
    }
    return n % 32 == 0 || words[n / 32] == ShiftRight(ALL_BITS, 32 - n % 32);
  }

  lemma SeenAt(words: Words, k: nat, j: nat)
    requires k < 2 && j < 32
    ensures Seen(words, 32 * k + j) == BitAt(words[k], j)
  {
  }

  /** Every index from lo up to hi is marked. */
  ghost predicate AllSeen(words: Words, lo: nat, hi: nat)
    requires hi <= MAX_REQUIRED
  {
    forall i: nat | lo <= i < hi :: Seen(words, i)
  }

  /** The r low bits of word k are the indexes from 32k on. */
  lemma LowBits(words: Words, k: nat, r: nat)
    requires k < 2 && r <= 32
    ensures LowSet(words[k], r) <==> AllSeen(words, 32 * k, 32 * k + r)
  {
    if LowSet(words[k], r) {
      forall i: nat | 32 * k <= i < 32 * k + r ensures Seen(words, i) {
        SeenAt(words, k, i - 32 * k);
      }
    }
    if AllSeen(words, 32 * k, 32 * k + r) {
      forall j: nat | j < r ensures BitAt(words[k], j) {
        SeenAt(words, k, j);
        assert Seen(words, 32 * k + j);
      }
    }
  }

  lemma WholeWord(words: Words, n: nat, k: nat)
    requires Within(words, n) && k < 2 && 32 * (k + 1) <= n <= MAX_REQUIRED
    ensures words[k] == ALL_BITS <==> AllSeen(words, 32 * k, 32 * k + 32)
  {
    AllBitsAreOnes();
    IsOnes(words[k], 32);
    LowBits(words, k, 32);
  }

  lemma LastWord(words: Words, n: nat, k: nat, r: nat)
    requires Within(words, n) && n == 32 * k + r <= MAX_REQUIRED && 0 < r < 32
    ensures words[k] == ShiftRight(ALL_BITS, 32 - r) <==> AllSeen(words, 32 * k, 32 * k + r)
  {
    AllBitsAreOnes();
    OnesShifted(32, 32 - r);
    forall j: nat | BitAt(words[k], j) ensures j < r {
      SeenAt(words, k, j);
    }
    IsOnes(words[k], r);
    LowBits(words, k, r);
  }

  /** The comparisons succeed exactly if every index below the count is marked. */
  lemma ComparedIff(words: Words, count: nat)
    requires Within(words, count)
    ensures Compared(words, count) <==> AllSeen(words, 0, Capped(count))
  {
    var n := Capped(count);
    assert Within(words, n);
    forall k: nat | k < n / 32 ensures words[k] == ALL_BITS <==> AllSeen(words, 32 * k, 32 * k + 32) {
      WholeWord(words, n, k);
    }
    if n % 32 != 0 {
      LastWord(words, n, n / 32, n % 32);
    }
    AllSeenInParts(words, n);
  }

  lemma AllSeenInParts(words: Words, n: nat)
    requires n <= MAX_REQUIRED
    ensures AllSeen(words, 0, n)
            <==> (forall k: nat | k < n / 32 :: AllSeen(words, 32 * k, 32 * k + 32)) && AllSeen(words, 32 * (n / 32), n)
  {
    if (forall k: nat | k < n / 32 :: AllSeen(words, 32 * k, 32 * k + 32)) && AllSeen(words, 32 * (n / 32), n) {
      forall i: nat | i < n ensures Seen(words, i) {
        assert i / 32 < n / 32 ==> AllSeen(words, 32 * (i / 32), 32 * (i / 32) + 32);
      }
    }
  }

  // ----- marking the fields met -----

  /** What meeting the field the iterator stands on does to the words. */
  function Noted(s: Schema, it: FieldIter, words: Words): (r: Words)
    requires it.pos < Len(s)
  {
    if FieldAt(s, it.pos).rule.Required? && it.required < MAX_REQUIRED then Marked(words, it.required) else words
  }

  predicate Positions(s: Schema, met: seq<nat>) {
    forall k :: 0 <= k < |met| ==> met[k] < Len(s)
  }

  /** The words after meeting the fields at these positions, from none. */
  function NotedAll(s: Schema, met: seq<nat>): (r: Words)
    requires Positions(s, met)
  {
    if met == [] then [0, 0]
    else
      var n := |met| - 1;
      Noted(s, At(s, met[n]), NotedAll(s, met[..n]))
  }

  lemma NotedWithin(s: Schema, i: nat, words: Words)
    requires i < Len(s) && Within(words, RequiredIndex(s, Len(s)))
    ensures Within(Noted(s, At(s, i), words), RequiredIndex(s, Len(s)))
  {
    RequiredNext(s, i);
    RequiredGrows(s, i + 1, Len(s));
    if FieldAt(s, i).rule.Required? && RequiredIndex(s, i) < MAX_REQUIRED {
      MarkedWithin(words, RequiredIndex(s, i), RequiredIndex(s, Len(s)));
    }
  }

  /** Fields met in order: all indexes so far are marked and no other. */
  ghost predicate MarkedUpTo(words: Words, n: nat) {
    Within(words, n) && AllSeen(words, 0, Capped(n))
  }

  lemma NotedInOrder(s: Schema, i: nat, words: Words)
    requires i < Len(s) && MarkedUpTo(words, RequiredIndex(s, i))
    ensures MarkedUpTo(Noted(s, At(s, i), words), RequiredIndex(s, i + 1))
  {
    RequiredNext(s, i);
    var n := RequiredIndex(s, i);
    if FieldAt(s, i).rule.Required? && n < MAX_REQUIRED {
      assert Within(words, n + 1);
      MarkedWithin(words, n, n + 1);
      forall j: nat | j < n + 1 ensures Seen(Marked(words, n), j) {
        MarkedSees(words, n, j);
      }
    }
  }

  lemma NothingWithin(n: nat)
    ensures Within([0, 0], n) && forall i: nat :: i < MAX_REQUIRED ==> !Seen([0, 0], i)
  {
    forall j: nat ensures !BitAt(0, j) {
      NoBits(j);
    }
  }

  /** Field i is required and has index j. */
  predicate HasIndex(s: Schema, i: nat, j: nat) {
    i < Len(s) && FieldAt(s, i).rule.Required? && RequiredIndex(s, i) == j
  }

  ghost predicate MetIndex(s: Schema, met: seq<nat>, j: nat) {
    exists k :: 0 <= k < |met| && HasIndex(s, met[k], j)
  }

  lemma MetMore(s: Schema, met: seq<nat>, n: nat, j: nat)
    requires |met| == n + 1
    ensures MetIndex(s, met, j) <==> MetIndex(s, met[..n], j) || HasIndex(s, met[n], j)
  {
    if MetIndex(s, met[..n], j) {
      var k :| 0 <= k < n && HasIndex(s, met[..n][k], j);
      assert HasIndex(s, met[k], j);
    }
    if MetIndex(s, met, j) {
      var k :| 0 <= k <= n && HasIndex(s, met[k], j);
      assert k < n ==> HasIndex(s, met[..n][k], j);
    }
  }

  lemma {:induction false} NotedAllSees(s: Schema, met: seq<nat>, j: nat)
    requires Positions(s, met) && j < MAX_REQUIRED
    ensures Within(NotedAll(s, met), RequiredIndex(s, Len(s)))
    ensures Seen(NotedAll(s, met), j) <==> MetIndex(s, met, j)
  {
    if met == [] {
      NothingWithin(RequiredIndex(s, Len(s)));
    } else {
      var n := |met| - 1;
      NotedAllSees(s, met[..n], j);
      NotedWithin(s, met[n], NotedAll(s, met[..n]));
      MetMore(s, met, n, j);
      if FieldAt(s, met[n]).rule.Required? && RequiredIndex(s, met[n]) < MAX_REQUIRED {
        MarkedSees(NotedAll(s, met[..n]), RequiredIndex(s, met[n]), j);
      }
    }
  }

  lemma IndexIsField(s: Schema, i: nat, k: nat, j: nat)
    requires HasIndex(s, i, j) && HasIndex(s, k, j)
    ensures i == k
  {
    RequiredNext(s, i);
    RequiredNext(s, k);
    if i + 1 <= k {
      RequiredGrows(s, i + 1, k);
    }
    if k + 1 <= i {
      RequiredGrows(s, k + 1, i);
    }
  }

  lemma {:induction false} FieldOfIndex(s: Schema, n: nat, j: nat) returns (i: nat)
    requires n <= Len(s) && j < RequiredIndex(s, n)
    ensures i < n && HasIndex(s, i, j)
  {
    RequiredNext(s, n - 1);
    if j < RequiredIndex(s, n - 1) {
      i := FieldOfIndex(s, n - 1, j);
    } else {
      i := n - 1;
    }
  }

  /** Every required field, up to the sixty-fourth, is among these. */
  ghost predicate RequiredMet(s: Schema, met: seq<nat>) {
    forall i: nat, j: nat | j < MAX_REQUIRED && HasIndex(s, i, j) :: i in met
  }

  lemma RequiredMetIff(s: Schema, met: seq<nat>)
    requires Positions(s, met)
    ensures RequiredMet(s, met) <==> forall j: nat | j < Capped(RequiredIndex(s, Len(s))) :: MetIndex(s, met, j)
  {
    var count := RequiredIndex(s, Len(s));
    if RequiredMet(s, met) {
      forall j: nat | j < Capped(count) ensures MetIndex(s, met, j) {
        var i := FieldOfIndex(s, Len(s), j);
        assert i in met;
      }
    }
    if forall j: nat | j < Capped(count) :: MetIndex(s, met, j) {
      forall i: nat, j: nat | j < MAX_REQUIRED && HasIndex(s, i, j) ensures i in met {
        RequiredNext(s, i);
        RequiredGrows(s, i + 1, Len(s));
        assert MetIndex(s, met, j);
        var k :| 0 <= k < |met| && HasIndex(s, met[k], j);
        IndexIsField(s, i, met[k], j);
      }
    }
  }

  /**
   * The check passes exactly if every required field, up to the sixty-fourth,
   * has been met, whatever else was and in whatever order.
   */
  lemma CheckPassesIff(s: Schema, met: seq<nat>)
    requires Positions(s, met)
    ensures Compared(NotedAll(s, met), RequiredIndex(s, Len(s))) <==> RequiredMet(s, met)
  {
    NotedAllSees(s, met, 0);
    ComparedIff(NotedAll(s, met), RequiredIndex(s, Len(s)));
    forall j: nat | j < MAX_REQUIRED ensures Seen(NotedAll(s, met), j) <==> MetIndex(s, met, j) {
      NotedAllSees(s, met, j);
    }
    RequiredMetIff(s, met);
  }

  /** The count of required fields: on to the end of the array, and one more if the last field is required too. */
  method CountRequired(s: Schema, start: FieldIter) returns (count: nat)
    requires ValidIter(s, start)
    ensures count == RequiredIndex(s, Len(s))
  {
    var it, more := start, true;
    var last := false;
    count := 0;
    while more
      invariant ValidIter(s, it)
      invariant !more ==> it.pos == 0 && (s.Fields? ==> count == RequiredIndex(s, Len(s) - 1) && last == FieldAt(s, Len(s) - 1).rule.Required?)
      invariant !more && s.End? ==> count == 0
      decreases if more then Len(s) - it.pos + 1 else 0
    {
      count := it.required;
      last := if s.End? then true else FieldAt(s, it.pos).rule.Required?;
      it, more := Next(s, it);
    }
    if s.Fields? {
      RequiredNext(s, Len(s) - 1);
    }
    if last && s.Fields? {
      count := count + 1;
    }
  }
}
