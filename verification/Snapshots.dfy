/**
 * `SnapshotList`: a circular doubly linked list around a dummy head. Nodes are
 * named by their index; node 0 is the head.
 */
module Snapshots {
  /** `path` goes once round the ring, from the head back to the head. */
  ghost predicate Ring(next: seq<nat>, prev: seq<nat>, path: seq<nat>) {
    forall i: nat :: i + 1 < |path| ==> Joined(next, prev, path[i], path[i + 1])
  }

  predicate Joined(next: seq<nat>, prev: seq<nat>, a: nat, b: nat) {
    a < |next| && b < |prev| && next[a] == b && prev[b] == a
  }

  ghost function Path(order: seq<nat>): seq<nat> {
    [0] + order + [0]
  }

  /** The live snapshots in the order they were taken: each once, with ascending sequence numbers. */
  ghost predicate Live(sequence: seq<nat>, order: seq<nat>) {
    && (forall i :: 0 <= i < |order| ==> 0 < order[i] < |sequence|)
    && (forall i, j :: 0 <= i < j < |order| ==> order[i] != order[j])
    && forall i, j :: 0 <= i < j < |order| ==> sequence[order[i]] <= sequence[order[j]]
  }

  /** The links after appending x before the head. */
  lemma Appended(next: seq<nat>, prev: seq<nat>, order: seq<nat>, x: nat, next': seq<nat>, prev': seq<nat>)
    requires Ring(next, prev, Path(order)) && |next| == |prev| == x && x > 0
    requires (forall i :: 0 <= i < |order| ==> 0 < order[i] < x) && forall i, j :: 0 <= i < j < |order| ==> order[i] != order[j]
    requires var last := if order == [] then 0 else order[|order| - 1];
      next' == (next + [0])[last := x] && prev' == (prev + [last])[0 := x]
    ensures Ring(next', prev', Path(order + [x]))
  {
    var path, path' := Path(order), Path(order + [x]);
    forall i: nat | i + 1 < |path'| ensures Joined(next', prev', path'[i], path'[i + 1]) {
      if i < |order| {
        assert Joined(next, prev, path[i], path[i + 1]);
      }
    }
  }

  /** The links after taking out the node at place p. */
  lemma Unlinked(next: seq<nat>, prev: seq<nat>, order: seq<nat>, p: nat, next': seq<nat>, prev': seq<nat>)
    requires Ring(next, prev, Path(order)) && p < |order|
    requires (forall i :: 0 <= i < |order| ==> 0 < order[i]) && forall i, j :: 0 <= i < j < |order| ==> order[i] != order[j]
    requires var path := Path(order);
      path[p] < |next| && path[p + 2] < |prev| && next' == next[path[p] := path[p + 2]] && prev' == prev[path[p + 2] := path[p]]
    ensures Ring(next', prev', Path(order[..p] + order[p + 1..]))
  {
    var path, path' := Path(order), Path(order[..p] + order[p + 1..]);
    forall i: nat | i + 1 < |path'| ensures Joined(next', prev', path'[i], path'[i + 1]) {
      if i < p {
        assert Joined(next, prev, path[i], path[i + 1]);
      } else if i > p {
        assert Joined(next, prev, path[i + 1], path[i + 2]);
      }
    }
  }

  class SnapshotList {
    var next: seq<nat>
    var prev: seq<nat>
    var sequence: seq<nat>
    ghost var order: seq<nat>

    ghost predicate Valid()
      reads this
    {
      |next| == |prev| == |sequence| > 0 && Live(sequence, order) && Ring(next, prev, Path(order))
    }

    constructor ()
      ensures Valid() && order == []
    {
      next, prev, sequence := [0], [0], [0];
      order := [];
    }

    method Empty() returns (empty: bool)
      requires Valid()
      ensures empty <==> order == []
    {
      LinkOf(next, prev, order, 0);
      empty := next[0] == 0;
    }

    /** The live snapshot with the smallest sequence number. */
    method Oldest() returns (node: nat)
      requires Valid() && order != []
      ensures node in order && node < |sequence| && forall n <- order :: n < |sequence| && sequence[node] <= sequence[n]
    {
      LinkOf(next, prev, order, 0);
      node := next[0];
    }

    method Newest() returns (node: nat)
      requires Valid() && order != []
      ensures node in order && node < |sequence| && forall n <- order :: n < |sequence| && sequence[n] <= sequence[node]
    {
      LinkOf(next, prev, order, |order|);
      node := prev[0];
    }

    /** Append a snapshot at or after the newest one. */
    method New(number: nat) returns (node: nat)
      requires Valid() && forall n <- order :: n < |sequence| && sequence[n] <= number
      modifies this
      ensures Valid() && order == old(order) + [node] && node < |sequence| && sequence[node] == number
      ensures old(sequence) <= sequence
    {
      node := |next|;
      LinkOf(next, prev, order, |order|);
      var last := prev[0];
      ghost var n0, p0 := next, prev;
      sequence := sequence + [number];
      next, prev := next + [0], prev + [last];
      next := next[last := node];
      prev := prev[0 := node];
      Appended(n0, p0, order, node, next, prev);
      order := order + [node];
    }

    /** Take a live snapshot out; the others keep their order. */
    method Delete(node: nat)
      requires Valid() && node in order
      modifies this
      ensures Valid() && sequence == old(sequence)
      ensures exists p: nat :: p < |old(order)| && old(order)[p] == node && order == old(order)[..p] + old(order)[p + 1..]
    {
      ghost var p :| 0 <= p < |order| && order[p] == node;
      LinkOf(next, prev, order, p);
      LinkOf(next, prev, order, p + 1);
      var before, after := prev[node], next[node];
      ghost var n0, p0 := next, prev;
      next := next[before := after];
      prev := prev[after := before];
      Unlinked(n0, p0, order, p, next, prev);
      StillLive(sequence, order, p);
      order := order[..p] + order[p + 1..];
    }

    /** DoCompactionWork's choice: no snapshot anyone holds is below it, nor the present. */
    method SmallestSnapshot(lastSequence: nat) returns (smallest: nat)
      requires Valid() && forall n <- order :: n < |sequence| && sequence[n] <= lastSequence
      ensures smallest <= lastSequence && forall n <- order :: n < |sequence| && smallest <= sequence[n]
      ensures smallest == lastSequence || exists n <- order :: n < |sequence| && sequence[n] == smallest
    {
      var empty := Empty();
      if empty {
        return lastSequence;
      }
      var node := Oldest();
      smallest := sequence[node];
    }
  }

  lemma LinkOf(next: seq<nat>, prev: seq<nat>, order: seq<nat>, i: nat)
    requires Ring(next, prev, Path(order)) && i <= |order|
    ensures Joined(next, prev, if i == 0 then 0 else order[i - 1], if i == |order| then 0 else order[i])
  {
    var path := Path(order);
    assert Joined(next, prev, path[i], path[i + 1]);
  }

  lemma StillLive(sequence: seq<nat>, order: seq<nat>, p: nat)
    requires Live(sequence, order) && p < |order|
    ensures Live(sequence, order[..p] + order[p + 1..])
  {
    var rest := order[..p] + order[p + 1..];
    assert forall i :: 0 <= i < |rest| ==> rest[i] == order[if i < p then i else i + 1];
  }
}
