/**
 * The memtable's skip list. Nodes live in an arena and are named by their
 * index: node 0 is the head, and 0 as a pointer is null, since no link ever
 * leads back to the head. Keys are ordered like reals (see InternalKeys).
 */
module SkipLists {
  const MAX_HEIGHT: nat := 12

  type Key = real

  /** `next[n][level]` is node n's link on that level; a node has as many links as its height. */
  datatype List = List(keys: seq<Key>, next: seq<seq<nat>>, maxHeight: nat)

  // ----- levels as chains of nodes -----

  /** What follows position p of a path; 0 after the last. */
  function Succ(path: seq<nat>, p: nat): nat {
    if p + 1 < |path| then path[p + 1] else 0
  }

  /** Node n has a link on the level, and it leads to v. */
  predicate Leads(l: List, level: nat, n: nat, v: nat) {
    n < |l.next| && level < |l.next[n]| && l.next[n][level] == v
  }

  ghost predicate Linked(l: List, level: nat, path: seq<nat>) {
    forall p: nat :: p < |path| ==> Leads(l, level, path[p], Succ(path, p))
  }

  /** A chain of proper nodes in strictly ascending key order. */
  ghost predicate SortedChain(keys: seq<Key>, c: seq<nat>) {
    && (forall i :: 0 <= i < |c| ==> 0 < c[i] < |keys|)
    && forall i, j :: 0 <= i < j < |c| ==> keys[c[i]] < keys[c[j]]
  }

  ghost predicate LevelOk(l: List, level: nat, c: seq<nat>) {
    SortedChain(l.keys, c) && Linked(l, level, [0] + c)
  }

  ghost predicate Contained(chains: seq<seq<nat>>, level: nat) {
    level + 1 < |chains| && forall n <- chains[level + 1] :: n in chains[level]
  }

  /** Every level is a sorted, null-terminated chain contained in the one below. */
  ghost predicate Valid(l: List, chains: seq<seq<nat>>) {
    && |l.keys| == |l.next| > 0 && |chains| == MAX_HEIGHT && 1 <= l.maxHeight <= MAX_HEIGHT
    && (forall level: nat :: level < MAX_HEIGHT ==> LevelOk(l, level, chains[level]))
    && (forall level: nat :: level < MAX_HEIGHT - 1 ==> Contained(chains, level))
    && (forall level: nat :: l.maxHeight <= level < MAX_HEIGHT ==> chains[level] == [])
  }

  /** The set the list stands for. */
  ghost function Members(keys: seq<Key>, c: seq<nat>): set<Key>
    requires SortedChain(keys, c)
  {
    set i | 0 <= i < |c| :: keys[c[i]]
  }

  // ----- searching -----

  /** x is the head or a node of the chain with a key before `key`. */
  ghost predicate Passed(keys: seq<Key>, c: seq<nat>, key: Key, x: nat)
    requires SortedChain(keys, c)
  {
    x == 0 || (x in c && keys[x] < key)
  }

  /** x is the last node before `key`, or the head if there is none. */
  ghost predicate LastBefore(keys: seq<Key>, c: seq<nat>, key: Key, x: nat)
    requires SortedChain(keys, c)
  {
    Passed(keys, c, key, x) && forall n <- c :: keys[n] < key ==> x != 0 && keys[n] <= keys[x]
  }

  /** n is the first node at or after `key`, or null if there is none. */
  ghost predicate FirstFrom(keys: seq<Key>, c: seq<nat>, key: Key, n: nat)
    requires SortedChain(keys, c)
  {
    && (n != 0 ==> n in c && keys[n] >= key)
    && forall m <- c :: keys[m] >= key ==> n != 0 && keys[n] <= keys[m]
  }

  /** Node x stands at position p of its path. */
  ghost predicate Stands(c: seq<nat>, x: nat, p: nat) {
    p <= |c| && x == if p == 0 then 0 else c[p - 1]
  }

  lemma Locate(c: seq<nat>, x: nat) returns (p: nat)
    requires x == 0 || x in c
    ensures Stands(c, x, p)
  {
    if x == 0 {
      p := 0;
    } else {
      var i :| 0 <= i < |c| && c[i] == x;
      p := i + 1;
    }
  }

  lemma LinkAt(l: List, level: nat, c: seq<nat>, x: nat, p: nat)
    requires LevelOk(l, level, c) && Stands(c, x, p)
    ensures x < |l.next| && level < |l.next[x]| && l.next[x][level] == if p < |c| then c[p] else 0
  {
    var path := [0] + c;
    assert path[p] == x && Leads(l, level, path[p], Succ(path, p));
    assert p < |c| ==> path[p + 1] == c[p];
  }

  /** The node at p is the last before the key when the one after it is not before the key. */
  lemma StopsAt(keys: seq<Key>, c: seq<nat>, key: Key, x: nat, p: nat)
    requires SortedChain(keys, c) && Passed(keys, c, key, x) && Stands(c, x, p)
    requires p == |c| || keys[c[p]] >= key
    ensures LastBefore(keys, c, key, x) && FirstFrom(keys, c, key, if p < |c| then c[p] else 0)
  {
    forall n | n in c ensures keys[n] < key ==> x != 0 && keys[n] <= keys[x] {
      var i :| 0 <= i < |c| && c[i] == n;
      if i < p {
        Ascends(keys, c, i, p - 1);
      } else {
        Ascends(keys, c, p, i);
      }
    }
    forall m | m in c ensures keys[m] >= key ==> p < |c| && keys[c[p]] <= keys[m] {
      var i :| 0 <= i < |c| && c[i] == m;
      if i < p {
        Ascends(keys, c, i, p - 1);
      } else {
        Ascends(keys, c, p, i);
      }
    }
  }

  lemma Ascends(keys: seq<Key>, c: seq<nat>, i: nat, j: nat)
    requires SortedChain(keys, c) && i <= j < |c|
    ensures keys[c[i]] <= keys[c[j]]
  {
  }

  lemma StepDown(l: List, chains: seq<seq<nat>>, level: nat, key: Key, x: nat)
    requires Valid(l, chains) && 0 < level < MAX_HEIGHT && Passed(l.keys, chains[level], key, x)
    ensures LevelOk(l, level - 1, chains[level - 1]) && Passed(l.keys, chains[level - 1], key, x)
  {
    assert Contained(chains, level - 1);
  }

  /** `prev[level]` is the last node before the key on each level the list has. */
  ghost predicate PrevOk(l: List, chains: seq<seq<nat>>, key: Key, prev: seq<nat>, from: nat) {
    Valid(l, chains) && |prev| == MAX_HEIGHT &&
    forall level: nat :: from <= level < l.maxHeight ==> LastBefore(l.keys, chains[level], key, prev[level])
  }

  /** The first node at or after the key, and on every level the last node before it. */
  method FindGreaterOrEqual(l: List, key: Key, ghost chains: seq<seq<nat>>) returns (node: nat, prev: seq<nat>)
    requires Valid(l, chains)
    ensures FirstFrom(l.keys, chains[0], key, node) && PrevOk(l, chains, key, prev, 0)
  {
    prev := seq(MAX_HEIGHT, _ => 0);
    var x: nat, level := 0, l.maxHeight - 1;
    ghost var p := 0;
    while true
      invariant 0 <= level < l.maxHeight && Stands(chains[level], x, p) && Passed(l.keys, chains[level], key, x)
      invariant PrevOk(l, chains, key, prev, level + 1)
      decreases level, |chains[level]| - p
    {
      LinkAt(l, level, chains[level], x, p);
      var next := l.next[x][level];
      if next != 0 && l.keys[next] < key {
        x, p := next, p + 1;
      } else {
        StopsAt(l.keys, chains[level], key, x, p);
        prev := prev[level := x];
        if level == 0 {
          return next, prev;
        }
        StepDown(l, chains, level, key, x);
        level := level - 1;
        p := Locate(chains[level], x);
      }
    }
  }

  /** The last node before the key, or the head. */
  method FindLessThan(l: List, key: Key, ghost chains: seq<seq<nat>>) returns (node: nat)
    requires Valid(l, chains)
    ensures LastBefore(l.keys, chains[0], key, node)
  {
    var x: nat, level := 0, l.maxHeight - 1;
    ghost var p := 0;
    while true
      invariant 0 <= level < l.maxHeight && Stands(chains[level], x, p) && Passed(l.keys, chains[level], key, x)
      decreases level, |chains[level]| - p
    {
      LinkAt(l, level, chains[level], x, p);
      var next := l.next[x][level];
      if next == 0 || l.keys[next] >= key {
        StopsAt(l.keys, chains[level], key, x, p);
        if level == 0 {
          return x;
        }
        StepDown(l, chains, level, key, x);
        level := level - 1;
        p := Locate(chains[level], x);
      } else {
        x, p := next, p + 1;
      }
    }
  }

  /** The last node, or the head of an empty list. */
  method FindLast(l: List, ghost chains: seq<seq<nat>>) returns (node: nat)
    requires Valid(l, chains)
    ensures if chains[0] == [] then node == 0 else node == chains[0][|chains[0]| - 1]
  {
    var x: nat, level := 0, l.maxHeight - 1;
    ghost var p: nat := 0;
    while true
      invariant 0 <= level < l.maxHeight && Stands(chains[level], x, p)
      decreases level, |chains[level]| - p
    {
      LinkAt(l, level, chains[level], x, p);
      var next := l.next[x][level];
      if next == 0 {
        if level == 0 {
          return x;
        }
        assert Contained(chains, level - 1);
        level := level - 1;
        p := Locate(chains[level], x);
      } else {
        x, p := next, p + 1;
      }
    }
  }

  method Contains(l: List, key: Key, ghost chains: seq<seq<nat>>) returns (found: bool)
    requires Valid(l, chains)
    ensures found <==> key in Members(l.keys, chains[0])
  {
    var x, _ := FindGreaterOrEqual(l, key, chains);
    found := x != 0 && l.keys[x] == key;
    ghost var c := chains[0];
    if key in Members(l.keys, c) {
      ghost var i :| 0 <= i < |c| && l.keys[c[i]] == key;
      assert c[i] in c;
    }
  }

  // ----- inserting -----

  /** One pointer store. */
  function Store(l: List, n: nat, level: nat, v: nat): List
    requires n < |l.next| && level < |l.next[n]|
  {
    var links: seq<nat> := l.next[n][level := v];
    l.(next := l.next[n := links])
  }

  /** A store into a node that is not on the level leaves the level as it is. */
  lemma StoreElsewhere(l: List, n: nat, level: nat, v: nat, other: nat, c: seq<nat>)
    requires n < |l.next| && level < |l.next[n]| && LevelOk(l, other, c)
    requires other != level || n !in [0] + c
    ensures LevelOk(Store(l, n, level, v), other, c)
  {
    var path := [0] + c;
    forall p: nat | p < |path| ensures Leads(Store(l, n, level, v), other, path[p], Succ(path, p)) {
      assert path[p] in path && Leads(l, other, path[p], Succ(path, p));
    }
  }

  /** Node x linked in after position p. */
  function Spliced(c: seq<nat>, p: nat, x: nat): seq<nat>
    requires p <= |c|
  {
    c[..p] + [x] + c[p..]
  }

  lemma SplicedSorted(keys: seq<Key>, c: seq<nat>, p: nat, x: nat)
    requires SortedChain(keys, c) && p <= |c| && 0 < x < |keys|
    requires forall i :: 0 <= i < p ==> keys[c[i]] < keys[x]
    requires forall i :: p <= i < |c| ==> keys[x] < keys[c[i]]
    ensures SortedChain(keys, Spliced(c, p, x))
  {
  }

  /** Successors along the spliced path. */
  lemma SplicedSucc(c: seq<nat>, p: nat, x: nat, q: nat)
    requires p <= |c| && q <= |c| + 1
    ensures var path, path' := [0] + c, [0] + Spliced(c, p, x);
      && path'[q] == (if q <= p then path[q] else if q == p + 1 then x else path[q - 1])
      && Succ(path', q) == if q < p then Succ(path, q) else if q == p then x else Succ(path, q - 1)
  {
  }

  lemma StoreLeads(l: List, level: nat, prev: nat, x: nat, n: nat, v: nat)
    requires prev < |l.next| && level < |l.next[prev]|
    ensures Leads(Store(l, prev, level, x), level, prev, x)
    ensures n != prev && Leads(l, level, n, v) ==> Leads(Store(l, prev, level, x), level, n, v)
  {
  }

  /** The link at place q of the spliced path, after the store. */
  lemma PublishAt(l: List, level: nat, c: seq<nat>, p: nat, prev: nat, x: nat, q: nat)
    requires Linked(l, level, [0] + c) && Stands(c, prev, p) && prev < |l.next| && level < |l.next[prev]|
    requires forall i: nat :: i <= |c| && i != p ==> ([0] + c)[i] != prev
    requires x != prev && Leads(l, level, x, Succ([0] + c, p)) && q <= |c| + 1
    ensures var path' := [0] + Spliced(c, p, x);
      Leads(Store(l, prev, level, x), level, path'[q], Succ(path', q))
  {
    var path := [0] + c;
    SplicedSucc(c, p, x, q);
    if q == p {
      StoreLeads(l, level, prev, x, prev, x);
    } else if q == p + 1 {
      StoreLeads(l, level, prev, x, x, Succ(path, p));
    } else {
      var i := if q < p then q else q - 1;
      assert Leads(l, level, path[i], Succ(path, i));
      StoreLeads(l, level, prev, x, path[i], Succ(path, i));
    }
  }

  /** The publishing store: x, already pointing on, is linked in after its predecessor. */
  lemma Publish(l: List, level: nat, c: seq<nat>, p: nat, prev: nat, x: nat)
    requires LevelOk(l, level, c) && Stands(c, prev, p) && prev < |l.next| && level < |l.next[prev]|
    requires SortedChain(l.keys, Spliced(c, p, x)) && x != prev
    requires Leads(l, level, x, Succ([0] + c, p))
    ensures LevelOk(Store(l, prev, level, x), level, Spliced(c, p, x))
  {
    var path' := [0] + Spliced(c, p, x);
    DistinctPath(l.keys, c, p);
    forall q: nat | q < |path'| ensures Leads(Store(l, prev, level, x), level, path'[q], Succ(path', q)) {
      PublishAt(l, level, c, p, prev, x, q);
    }
  }

  lemma DistinctPath(keys: seq<Key>, c: seq<nat>, p: nat)
    requires SortedChain(keys, c) && p <= |c|
    ensures forall q: nat :: q <= |c| && q != p ==> ([0] + c)[q] != ([0] + c)[p]
  {
    var path := [0] + c;
    forall q: nat | q <= |c| && q != p ensures path[q] != path[p] {
      if q > 0 && p > 0 {
        assert keys[c[q - 1]] != keys[c[p - 1]];
      }
    }
  }

  // ----- the steps of Insert -----

  lemma RaiseHeight(l: List, chains: seq<seq<nat>>, height: nat)
    requires Valid(l, chains) && l.maxHeight <= height <= MAX_HEIGHT
    ensures Valid(l.(maxHeight := height), chains)
  {
    forall level: nat | level < MAX_HEIGHT ensures LevelOk(l.(maxHeight := height), level, chains[level]) {
      SameNodes(l, l.(maxHeight := height), level, chains[level]);
    }
  }

  /** A level depends only on the keys and links that were there. */
  lemma SameNodes(l: List, l': List, level: nat, c: seq<nat>)
    requires LevelOk(l, level, c) && |l.keys| == |l.next| && l.keys <= l'.keys && l.next <= l'.next
    ensures LevelOk(l', level, c)
  {
    var path := [0] + c;
    forall p: nat | p < |path| ensures Leads(l', level, path[p], Succ(path, p)) {
      assert Leads(l, level, path[p], Succ(path, p));
    }
  }

  /** NewNode: in the arena, but not yet on any level. */
  function WithNode(l: List, key: Key, height: nat): List {
    List(l.keys + [key], l.next + [NewLinks(height)], l.maxHeight)
  }

  lemma AddNode(l: List, chains: seq<seq<nat>>, key: Key, height: nat)
    requires Valid(l, chains)
    ensures Valid(WithNode(l, key, height), chains)
    ensures forall level: nat :: level < MAX_HEIGHT ==> |l.keys| !in chains[level]
  {
    forall level: nat | level < MAX_HEIGHT
      ensures LevelOk(WithNode(l, key, height), level, chains[level]) && |l.keys| !in chains[level]
    {
      assert LevelOk(l, level, chains[level]);
      SameNodes(l, WithNode(l, key, height), level, chains[level]);
    }
  }

  ghost predicate NoKey(keys: seq<Key>, c: seq<nat>, key: Key) {
    forall i :: 0 <= i < |c| && c[i] < |keys| ==> keys[c[i]] != key
  }

  /** x is linked on the levels below i, and on the others its predecessors are known. */
  ghost predicate Linking(l: List, chains: seq<seq<nat>>, x: nat, prev: seq<nat>, height: nat, i: nat) {
    && Valid(l, chains) && 0 < x < |l.keys| && |l.next[x]| == height && i <= height <= l.maxHeight && |prev| == MAX_HEIGHT
    && (forall j: nat :: j < i ==> x in chains[j])
    && (forall j: nat :: i <= j < MAX_HEIGHT ==> x !in chains[j])
    && (forall j: nat :: i <= j < height ==> Insertable(l.keys, chains[j], l.keys[x], prev[j]))
  }

  ghost predicate Insertable(keys: seq<Key>, c: seq<nat>, key: Key, prev: nat) {
    SortedChain(keys, c) && LastBefore(keys, c, key, prev) && NoKey(keys, c, key)
  }

  /** The predecessor's place splits the chain around the new key. */
  lemma SplitsAt(keys: seq<Key>, c: seq<nat>, prev: nat, p: nat, x: nat)
    requires 0 < x < |keys| && Insertable(keys, c, keys[x], prev) && Stands(c, prev, p)
    ensures SortedChain(keys, Spliced(c, p, x))
  {
    forall i | 0 <= i < p ensures keys[c[i]] < keys[x] {
      Ascends(keys, c, i, p - 1);
    }
    forall i | p <= i < |c| ensures keys[x] < keys[c[i]] {
      assert c[i] in c;
      if p > 0 {
        assert keys[c[p - 1]] < keys[c[i]];
      }
    }
    SplicedSorted(keys, c, p, x);
  }

  /** The new node's own link: nobody can see it yet. */
  lemma LinkOwn(l: List, chains: seq<seq<nat>>, x: nat, prev: seq<nat>, height: nat, i: nat, v: nat)
    requires Linking(l, chains, x, prev, height, i) && i < height
    ensures Linking(Store(l, x, i, v), chains, x, prev, height, i)
  {
    var l' := Store(l, x, i, v);
    forall level: nat | level < MAX_HEIGHT ensures LevelOk(l', level, chains[level]) {
      StoreElsewhere(l, x, i, v, level, chains[level]);
    }
    forall j: nat | i <= j < height ensures Insertable(l'.keys, chains[j], l'.keys[x], prev[j]) {
      assert Insertable(l.keys, chains[j], l.keys[x], prev[j]);
    }
  }

  lemma PublishKeepsLevels(l: List, chains: seq<seq<nat>>, x: nat, prev: nat, i: nat, p: nat)
    requires Valid(l, chains) && 0 < x < |l.keys| && i < MAX_HEIGHT && x !in chains[i]
    requires Insertable(l.keys, chains[i], l.keys[x], prev) && Stands(chains[i], prev, p)
    requires Leads(l, i, x, Succ([0] + chains[i], p))
    ensures prev < |l.next| && i < |l.next[prev]|
    ensures forall level: nat :: level < MAX_HEIGHT ==>
      LevelOk(Store(l, prev, i, x), level, if level == i then Spliced(chains[i], p, x) else chains[level])
  {
    LinkAt(l, i, chains[i], prev, p);
    SplitsAt(l.keys, chains[i], prev, p, x);
    Publish(l, i, chains[i], p, prev, x);
    forall level: nat | level < MAX_HEIGHT && level != i ensures LevelOk(Store(l, prev, i, x), level, chains[level]) {
      StoreElsewhere(l, prev, i, x, level, chains[level]);
    }
  }

  lemma SplicedMembers(c: seq<nat>, p: nat, x: nat)
    requires p <= |c|
    ensures forall n :: n in Spliced(c, p, x) <==> n == x || n in c
  {
    assert c == c[..p] + c[p..];
  }

  /** Levels stay nested when x, linked below, is linked on level i. */
  lemma SpliceKeepsNesting(chains: seq<seq<nat>>, i: nat, p: nat, x: nat, chains': seq<seq<nat>>)
    requires |chains| == MAX_HEIGHT && i < MAX_HEIGHT && p <= |chains[i]| && (i > 0 ==> x in chains[i - 1])
    requires forall level: nat :: level < MAX_HEIGHT - 1 ==> Contained(chains, level)
    requires chains' == chains[i := Spliced(chains[i], p, x)]
    ensures forall level: nat :: level < MAX_HEIGHT - 1 ==> Contained(chains', level)
  {
    SplicedMembers(chains[i], p, x);
    forall level: nat | level < MAX_HEIGHT - 1 ensures Contained(chains', level) {
      assert Contained(chains, level);
    }
  }

  lemma LinkPublish(l: List, chains: seq<seq<nat>>, x: nat, prev: seq<nat>, height: nat, i: nat, p: nat)
    requires Linking(l, chains, x, prev, height, i) && i < height && Stands(chains[i], prev[i], p)
    requires Leads(l, i, x, Succ([0] + chains[i], p))
    ensures prev[i] < |l.next| && i < |l.next[prev[i]]|
    ensures Linking(Store(l, prev[i], i, x), chains[i := Spliced(chains[i], p, x)], x, prev, height, i + 1)
  {
    assert Insertable(l.keys, chains[i], l.keys[x], prev[i]);
    PublishKeepsLevels(l, chains, x, prev[i], i, p);
    SplicedMembers(chains[i], p, x);
    SpliceKeepsNesting(chains, i, p, x, chains[i := Spliced(chains[i], p, x)]);
    var l' := Store(l, prev[i], i, x);
    forall j: nat | i + 1 <= j < height ensures Insertable(l'.keys, chains[j], l'.keys[x], prev[j]) {
      assert Insertable(l.keys, chains[j], l.keys[x], prev[j]);
    }
  }

  // ----- the list, and what a concurrent reader can meet -----

  /** The list at one moment. */
  datatype Snapshot = Snapshot(list: List, chains: seq<seq<nat>>)

  ghost predicate SoundNow(s: Snapshot) {
    Valid(s.list, s.chains)
  }

  ghost function Set(s: Snapshot): set<Key>
    requires SoundNow(s)
  {
    Members(s.list.keys, s.chains[0])
  }

  /** Between the two moments nodes were only added to levels. */
  ghost predicate Grows(a: Snapshot, b: Snapshot) {
    && a.list.keys <= b.list.keys && |a.chains| == |b.chains| == MAX_HEIGHT
    && forall level: nat, n: nat :: level < MAX_HEIGHT && n in a.chains[level] ==> n in b.chains[level]
  }

  /** Every moment is sound, shows `before` or `after`, and only adds to the one before it. */
  ghost predicate Trace(steps: seq<Snapshot>, before: set<Key>, after: set<Key>) {
    && (forall s <- steps :: SoundNow(s) && (Set(s) == before || Set(s) == after))
    && forall i :: 0 < i < |steps| ==> Grows(steps[i - 1], steps[i])
  }

  lemma TraceSnoc(steps: seq<Snapshot>, before: set<Key>, after: set<Key>, s: Snapshot)
    requires Trace(steps, before, after) && steps != [] && SoundNow(s) && (Set(s) == before || Set(s) == after)
    requires Grows(steps[|steps| - 1], s)
    ensures Trace(steps + [s], before, after)
  {
  }

  lemma SpliceAddsKey(keys: seq<Key>, c: seq<nat>, p: nat, x: nat)
    requires SortedChain(keys, c) && p <= |c| && x < |keys| && SortedChain(keys, Spliced(c, p, x))
    ensures Members(keys, Spliced(c, p, x)) == Members(keys, c) + {keys[x]}
  {
    var d := Spliced(c, p, x);
    assert d[p] == x;
    forall i | 0 <= i < |c| ensures keys[c[i]] in Members(keys, d) {
      assert d[if i < p then i else i + 1] == c[i];
    }
    forall i | 0 <= i < |d| ensures keys[d[i]] in Members(keys, c) + {keys[x]} {
      assert i != p ==> d[i] == c[if i < p then i else i - 1];
    }
  }

  lemma {:induction false} OnLevelZero(chains: seq<seq<nat>>, level: nat, n: nat)
    requires |chains| == MAX_HEIGHT && level < MAX_HEIGHT && n in chains[level]
    requires forall l: nat :: l < MAX_HEIGHT - 1 ==> Contained(chains, l)
    ensures n in chains[0]
  {
    if level > 0 {
      assert Contained(chains, level - 1);
      OnLevelZero(chains, level - 1, n);
    }
  }

  lemma NewKeyNowhere(l: List, chains: seq<seq<nat>>, key: Key, level: nat)
    requires Valid(l, chains) && key !in Members(l.keys, chains[0]) && level < MAX_HEIGHT
    ensures NoKey(l.keys, chains[level], key)
  {
    forall i | 0 <= i < |chains[level]| && chains[level][i] < |l.keys| ensures l.keys[chains[level][i]] != key {
      OnLevelZero(chains, level, chains[level][i]);
      var k :| 0 <= k < |chains[0]| && chains[0][k] == chains[level][i];
    }
  }

  lemma InsertableWithNode(l: List, c: seq<nat>, key: Key, height: nat, prev: nat)
    requires |l.keys| == |l.next| && SortedChain(l.keys, c) && LastBefore(l.keys, c, key, prev) && NoKey(l.keys, c, key)
    ensures Insertable(WithNode(l, key, height).keys, c, key, prev)
  {
    var keys' := WithNode(l, key, height).keys;
    assert forall n :: 0 <= n < |l.keys| ==> keys'[n] == l.keys[n];
    assert forall n :: n in c ==> n < |l.keys|;
  }

  /** Every level a new node of this height gets has its predecessor in `prev`. */
  ghost predicate Prepared(l: List, chains: seq<seq<nat>>, key: Key, height: nat, prev: seq<nat>) {
    && Valid(l, chains) && |prev| == MAX_HEIGHT && 1 <= height <= l.maxHeight
    && forall j: nat :: j < height ==> LastBefore(l.keys, chains[j], key, prev[j])
  }

  lemma StartLinking(l: List, chains: seq<seq<nat>>, key: Key, height: nat, prev: seq<nat>)
    requires Prepared(l, chains, key, height, prev) && key !in Members(l.keys, chains[0])
    ensures Linking(WithNode(l, key, height), chains, |l.keys|, prev, height, 0)
  {
    AddNode(l, chains, key, height);
    forall j: nat | j < height ensures Insertable(WithNode(l, key, height).keys, chains[j], key, prev[j]) {
      NewKeyNowhere(l, chains, key, j);
      InsertableWithNode(l, chains[j], key, height, prev[j]);
    }
  }

  lemma SameSet(l: List, l': List, chains: seq<seq<nat>>)
    requires Valid(l, chains) && Valid(l', chains) && l.keys <= l'.keys
    ensures Set(Snapshot(l, chains)) == Set(Snapshot(l', chains)) && Grows(Snapshot(l, chains), Snapshot(l', chains))
  {
    var c := chains[0];
    assert forall i :: 0 <= i < |c| ==> l'.keys[c[i]] == l.keys[c[i]];
  }

  ghost predicate EndsAt(steps: seq<Snapshot>, before: set<Key>, after: set<Key>, s: Snapshot) {
    Trace(steps, before, after) && steps != [] && steps[|steps| - 1] == s
  }

  lemma OwnMoment(l: List, chains: seq<seq<nat>>, x: nat, prev: seq<nat>, height: nat, i: nat, v: nat,
                  before: set<Key>, after: set<Key>, steps: seq<Snapshot>)
    requires Linking(l, chains, x, prev, height, i) && i < height
    requires EndsAt(steps, before, after, Snapshot(l, chains))
    ensures var s := Snapshot(Store(l, x, i, v), chains);
      && Linking(s.list, chains, x, prev, height, i) && Set(s) == Set(Snapshot(l, chains))
      && EndsAt(steps + [s], before, after, s)
  {
    LinkOwn(l, chains, x, prev, height, i, v);
    SameSet(l, Store(l, x, i, v), chains);
    assert Snapshot(l, chains) in steps;
    TraceSnoc(steps, before, after, Snapshot(Store(l, x, i, v), chains));
  }

  lemma PublishMoment(l: List, chains: seq<seq<nat>>, x: nat, prev: seq<nat>, height: nat, i: nat, p: nat,
                      before: set<Key>, after: set<Key>, steps: seq<Snapshot>)
    requires Linking(l, chains, x, prev, height, i) && i < height && Stands(chains[i], prev[i], p)
    requires Leads(l, i, x, Succ([0] + chains[i], p)) && after == before + {l.keys[x]}
    requires Set(Snapshot(l, chains)) == if i == 0 then before else after
    requires EndsAt(steps, before, after, Snapshot(l, chains))
    ensures prev[i] < |l.next| && i < |l.next[prev[i]]|
    ensures var s := Snapshot(Store(l, prev[i], i, x), chains[i := Spliced(chains[i], p, x)]);
      && Linking(s.list, s.chains, x, prev, height, i + 1) && Set(s) == after
      && EndsAt(steps + [s], before, after, s)
  {
    LinkPublish(l, chains, x, prev, height, i, p);
    var s := Snapshot(Store(l, prev[i], i, x), chains[i := Spliced(chains[i], p, x)]);
    PublishedSet(Snapshot(l, chains), s, i, p, x);
    TraceSnoc(steps, before, after, s);
  }

  class SkipList {
    var keys: seq<Key>
    var next: seq<seq<nat>>
    var maxHeight: nat
    ghost var chains: seq<seq<nat>>

    function Now(): List
      reads this
    {
      List(keys, next, maxHeight)
    }

    ghost function Moment(): Snapshot
      reads this
    {
      Snapshot(Now(), chains)
    }

    ghost predicate Ok()
      reads this
    {
      SoundNow(Moment())
    }

    constructor ()
      ensures Ok() && Set(Moment()) == {}
    {
      var links: seq<nat> := seq(MAX_HEIGHT, _ => 0);
      keys := [0.0];
      next := [links];
      maxHeight := 1;
      chains := seq(MAX_HEIGHT, _ => []);
    }

    method SetNext(n: nat, level: nat, v: nat)
      requires n < |next| && level < |next[n]|
      modifies this`next
      ensures Now() == Store(old(Now()), n, level, v)
    {
      var links: seq<nat> := next[n][level := v];
      next := next[n := links];
    }

    /** The search, and raising the list's height if the new node is higher. */
    method Prepare(key: Key, height: nat, ghost before: set<Key>, ghost after: set<Key>) returns (prev: seq<nat>, ghost steps: seq<Snapshot>)
      requires Ok() && 1 <= height <= MAX_HEIGHT && Set(Moment()) == before
      modifies this`maxHeight
      ensures Prepared(Now(), chains, key, height, prev) && Set(Moment()) == before
      ensures EndsAt(steps, before, after, Moment())
    {
      steps := [Moment()];
      var x;
      x, prev := FindGreaterOrEqual(Now(), key, chains);
      if height > maxHeight {
        for i := maxHeight to height
          invariant |prev| == MAX_HEIGHT
          invariant forall j: nat :: j < maxHeight ==> LastBefore(keys, chains[j], key, prev[j])
          invariant forall j: nat :: maxHeight <= j < i ==> prev[j] == 0
        {
          prev := prev[i := 0];
        }
        ghost var was := Now();
        RaiseHeight(Now(), chains, height);
        maxHeight := height;
        SameSet(was, Now(), chains);
        steps := steps + [Moment()];
      }
    }

    /** One round of the linking loop: the node's own link, then the publishing store. */
    method LinkLevel(x: nat, prev: seq<nat>, height: nat, i: nat, ghost before: set<Key>, ghost after: set<Key>, ghost soFar: seq<Snapshot>)
      returns (ghost steps: seq<Snapshot>)
      requires Linking(Now(), chains, x, prev, height, i) && i < height && after == before + {keys[x]}
      requires Set(Moment()) == if i == 0 then before else after
      requires EndsAt(soFar, before, after, Moment())
      modifies this`next, this`chains
      ensures Linking(Now(), chains, x, prev, height, i + 1) && Set(Moment()) == after
      ensures EndsAt(steps, before, after, Moment())
    {
      ghost var p := Locate(chains[i], prev[i]);
      LinkAt(Now(), i, chains[i], prev[i], p);
      ghost var l := Now();
      var succ := next[prev[i]][i];
      SetNext(x, i, succ);
      OwnMoment(l, chains, x, prev, height, i, succ, before, after, soFar);
      steps := soFar + [Moment()];
      ghost var l1, c1 := Now(), chains;
      SetNext(prev[i], i, x);
      chains := chains[i := Spliced(chains[i], p, x)];
      PublishMoment(l1, c1, x, prev, height, i, p, before, after, steps);
      steps := steps + [Moment()];
    }

    /** For every height: each store leaves a sound list that holds the old set or the old set and the key. */
    method Insert(key: Key, height: nat) returns (ghost steps: seq<Snapshot>)
      requires Ok() && key !in Set(Moment()) && 1 <= height <= MAX_HEIGHT
      modifies this
      ensures Ok() && Set(Moment()) == old(Set(Moment())) + {key}
      ensures Trace(steps, old(Set(Moment())), Set(Moment()))
      ensures steps != [] && steps[|steps| - 1] == Moment()
    {
      ghost var before, after := Set(Moment()), Set(Moment()) + {key};
      var prev;
      prev, steps := Prepare(key, height, before, after);
      StartLinking(Now(), chains, key, height, prev);
      ghost var was := Now();
      var x := |keys|;
      keys, next := keys + [key], next + [NewLinks(height)];
      SameSet(was, Now(), chains);
      steps := steps + [Moment()];
      for i := 0 to height
        invariant Linking(Now(), chains, x, prev, height, i) && keys[x] == key
        invariant Set(Moment()) == if i == 0 then before else after
        invariant EndsAt(steps, before, after, Moment())
      {
        steps := LinkLevel(x, prev, height, i, before, after, steps);
      }
    }
  }

  function NewLinks(height: nat): seq<nat> {
    seq(height, _ => 0)
  }

  lemma PublishedSet(s: Snapshot, s': Snapshot, i: nat, p: nat, x: nat)
    requires SoundNow(s) && SoundNow(s') && i < MAX_HEIGHT && p <= |s.chains[i]| && x < |s.list.keys|
    requires s'.list.keys == s.list.keys && s'.chains == s.chains[i := Spliced(s.chains[i], p, x)]
    ensures Grows(s, s') && Set(s') == if i == 0 then Set(s) + {s.list.keys[x]} else Set(s)
  {
    SplicedMembers(s.chains[i], p, x);
    if i == 0 {
      assert LevelOk(s'.list, 0, s'.chains[0]);
      SpliceAddsKey(s.list.keys, s.chains[0], p, x);
    }
  }

  // ----- a reader beside the writer -----

  /** FindGreaterOrEqual between two loads: at node x on a level, or done. */
  datatype Reader = At(x: nat, level: nat) | Found(node: nat)

  /** One load and what follows from it. */
  ghost predicate Load(l: List, key: Key, r: Reader, r': Reader) {
    && r.At? && r.x < |l.next| && r.level < |l.next[r.x]| && l.next[r.x][r.level] < |l.keys|
    && var next := l.next[r.x][r.level];
       r' == if next != 0 && l.keys[next] < key then At(next, r.level)
             else if r.level == 0 then Found(next) else At(r.x, r.level - 1)
  }

  /** The reader stands on the head or on a node of its level, before the key. */
  ghost predicate OnItsWay(s: Snapshot, key: Key, r: Reader) {
    SoundNow(s) && (r.At? ==> r.level < MAX_HEIGHT && Passed(s.list.keys, s.chains[r.level], key, r.x))
  }

  lemma ReaderStays(a: Snapshot, b: Snapshot, key: Key, r: Reader)
    requires OnItsWay(a, key, r) && SoundNow(b) && Grows(a, b)
    ensures OnItsWay(b, key, r)
  {
    if r.At? {
      assert LevelOk(a.list, r.level, a.chains[r.level]);
    }
  }

  lemma ReaderLoads(s: Snapshot, key: Key, r: Reader, r': Reader)
    requires OnItsWay(s, key, r) && Load(s.list, key, r, r')
    ensures OnItsWay(s, key, r') && (r'.Found? ==> FirstFrom(s.list.keys, s.chains[0], key, r'.node))
  {
    var c := s.chains[r.level];
    assert LevelOk(s.list, r.level, c);
    var p := Locate(c, r.x);
    LinkAt(s.list, r.level, c, r.x, p);
    var next := s.list.next[r.x][r.level];
    if next == 0 || s.list.keys[next] >= key {
      StopsAt(s.list.keys, c, key, r.x, p);
      if r.level > 0 {
        StepDown(s.list, s.chains, r.level, key, r.x);
      }
    }
  }

  /** At each moment the reader makes one load or none. */
  ghost predicate ReaderRun(moments: seq<Snapshot>, readers: seq<Reader>, key: Key) {
    && |moments| == |readers| > 0 && readers[0].At? && readers[0].x == 0 && readers[0].level < MAX_HEIGHT
    && (forall s <- moments :: SoundNow(s))
    && (forall i :: 0 < i < |moments| ==> Grows(moments[i - 1], moments[i]))
    && (forall i :: 0 < i < |readers| ==>
          readers[i] == readers[i - 1] || Load(moments[i - 1].list, key, readers[i - 1], readers[i]))
  }

  /**
   * A reader beside any number of insertions, starting from any height it may
   * have read: wherever it is, it stands on its level, and what it returns was
   * the right answer at one moment of the search.
   */
  lemma {:induction false} ConcurrentSearch(moments: seq<Snapshot>, readers: seq<Reader>, key: Key, i: nat)
    requires ReaderRun(moments, readers, key) && i < |readers|
    ensures OnItsWay(moments[i], key, readers[i])
    ensures readers[i].Found? ==>
      exists j: nat :: j < i && SoundNow(moments[j]) && FirstFrom(moments[j].list.keys, moments[j].chains[0], key, readers[i].node)
  {
    assert SoundNow(moments[i]);
    if i > 0 {
      ConcurrentSearch(moments, readers, key, i - 1);
      var a, b := moments[i - 1], moments[i];
      assert Grows(a, b);
      if readers[i] != readers[i - 1] {
        ReaderLoads(a, key, readers[i - 1], readers[i]);
      }
      ReaderStays(a, b, key, readers[i]);
    }
  }

  /** Reading is never stuck: on its way a reader always has a link to load. */
  lemma ReaderCanLoad(s: Snapshot, key: Key, r: Reader)
    requires OnItsWay(s, key, r) && r.At?
    ensures exists r' :: Load(s.list, key, r, r')
  {
    var c := s.chains[r.level];
    assert LevelOk(s.list, r.level, c);
    var p := Locate(c, r.x);
    LinkAt(s.list, r.level, c, r.x, p);
    var next := s.list.next[r.x][r.level];
    var r' := if next != 0 && s.list.keys[next] < key then At(next, r.level)
              else if r.level == 0 then Found(next) else At(r.x, r.level - 1);
    assert Load(s.list, key, r, r');
  }
}
