/** The intrusive circular lists of kernel/list.h, on the heap, as sequences. */
module Lists {
  import opened Seqs

  class Node {
    var next: Node
    var prev: Node

    /** list_init */
    constructor ()
      ensures next == this && prev == this && Ring([this])
    {
      next := this;
      prev := this;
    }
  }

  function After(i: nat, n: nat): nat
    requires i < n
  {
    if i + 1 < n then i + 1 else 0
  }

  /** The nodes of r, and no others, form one ring in this order: a list head, r[0], and the
      entries of its list. */
  ghost predicate Ring(r: seq<Node>)
    reads r
  {
    && |r| > 0 && Distinct(r)
    && (forall i: nat :: i < |r| ==> r[i].next == r[After(i, |r|)])
    && (forall i: nat :: i < |r| ==> r[After(i, |r|)].prev == r[i])
  }

  method Init(head: Node)
    modifies head
    ensures Ring([head])
  {
    head.next := head;
    head.prev := head;
  }

  method Empty(head: Node, ghost r: seq<Node>) returns (b: bool)
    requires Ring(r) && r[0] == head
    ensures b <==> r == [head]
  {
    b := head.next == head;
  }

  method PushFront(head: Node, node: Node, ghost r: seq<Node>)
    requires Ring(r) && r[0] == head && node !in r
    modifies head, node, head.next
    ensures Ring([head, node] + r[1..])
  {
    node.next := head.next;
    node.prev := head;
    head.next.prev := node;
    head.next := node;
    ghost var q := [head, node] + r[1..];
    assert forall i: nat :: 2 <= i < |q| ==> q[i] == r[i - 1];
  }

  method PushBack(head: Node, node: Node, ghost r: seq<Node>)
    requires Ring(r) && r[0] == head && node !in r
    modifies head, node, head.prev
    ensures Ring(r + [node])
  {
    assert r[After(|r| - 1, |r|)].prev == r[|r| - 1];
    node.next := head;
    node.prev := head.prev;
    head.prev.next := node;
    head.prev := node;
  }

  /** Take a node out of its list, read from the node before it. */
  method Unlink(node: Node, ghost q: seq<Node>)
    requires Ring(q) && (if |q| == 1 then q[0] == node else q[1] == node)
    modifies node, node.next, node.prev
    ensures Ring([node])
    ensures |q| > 1 ==> Ring([q[0]] + q[2..])
  {
    assert |q| > 1 ==> q[After(0, |q|)] == node && node.prev == q[0] && node.next == q[After(1, |q|)];
    node.prev.next := node.next;
    node.next.prev := node.prev;
    node.next := node;
    node.prev := node;
    ghost var t := [q[0]] + if |q| > 1 then q[2..] else [];
    assert forall i: nat :: 1 <= i < |t| ==> t[i] == q[i + 1];
  }

  /** Take a node out of its list: the others stay linked in order, the node is left alone. */
  method Remove(node: Node, ghost r: seq<Node>, ghost k: nat)
    requires Ring(r) && k < |r| && r[k] == node
    modifies node, node.next, node.prev
    ensures Ring([node])
    ensures |r| > 1 ==> Ring(r[..k] + r[k + 1..])
  {
    ghost var before := if k == 0 then |r| - 1 else k - 1;
    ghost var q := r[before..] + r[..before];
    Rotate(r, before);
    RotatedAt(r, k, before, q);
    Unlink(node, q);
    if |r| > 1 {
      ghost var t := [q[0]] + q[2..];
      RemovedRotated(r, k, before, t);
      Rotate(t, if k == 0 then (if |t| == 1 then 0 else 1) else if k == 1 then 0 else |t| - (k - 1));
    }
  }

  /** Read from the node before it, node k comes second. */
  lemma RotatedAt(r: seq<Node>, k: nat, before: nat, q: seq<Node>)
    requires k < |r| && before == (if k == 0 then |r| - 1 else k - 1) && q == r[before..] + r[..before]
    ensures |q| == |r| && q[0] == r[before] && (|r| > 1 ==> q[1] == r[k])
  {
  }

  lemma RemovedRotated(r: seq<Node>, k: nat, before: nat, t: seq<Node>)
    requires k < |r| && |r| > 1 && before == (if k == 0 then |r| - 1 else k - 1)
    requires t == [r[before]] + (r[before..] + r[..before])[2..]
    ensures var b := if k == 0 then (if |t| == 1 then 0 else 1) else if k == 1 then 0 else |t| - (k - 1);
      b < |t| && t[b..] + t[..b] == r[..k] + r[k + 1..]
  {
    var q := r[before..] + r[..before];
    if k == 0 {
      assert q[2..] == r[1..|r| - 1];
      assert r[1..] == r[1..|r| - 1] + [r[|r| - 1]];
    } else {
      assert q[2..] == r[k + 1..] + r[..k - 1];
      assert r[..k] == r[..k - 1] + [r[k - 1]];
    }
  }

  method PopFront(head: Node, ghost r: seq<Node>) returns (node: Node?)
    requires Ring(r) && r[0] == head
    modifies r
    ensures |r| == 1 ==> node == null && Ring(r)
    ensures |r| > 1 ==> node == r[1] && Ring([node]) && Ring([head] + r[2..])
  {
    var empty := Empty(head, r);
    if empty {
      return null;
    }
    node := head.next;
    Remove(node, r, 1);
    assert r[..1] + r[2..] == [head] + r[2..];
  }

  /** A ring may be read from any of its nodes. */
  lemma Rotate(r: seq<Node>, k: nat)
    requires Ring(r) && k < |r|
    ensures Ring(r[k..] + r[..k])
  {
    var q := r[k..] + r[..k];
    assert forall i: nat :: i < |q| ==> q[i] == r[if i + k < |r| then i + k else i + k - |r|];
    assert Distinct(q);
    forall i: nat | i < |q| ensures q[i].next == q[After(i, |q|)] && q[After(i, |q|)].prev == q[i] {
      var ri := if i + k < |r| then i + k else i + k - |r|;
      assert q[After(i, |q|)] == r[After(ri, |r|)];
    }
  }

  /** Insert after any entry, as list_push_front does when given an entry for the head. */
  method InsertAfter(entry: Node, node: Node, ghost r: seq<Node>, ghost k: nat)
    requires Ring(r) && k < |r| && r[k] == entry && node !in r
    modifies entry, node, entry.next
    ensures Ring(r[..k + 1] + [node] + r[k + 1..])
  {
    Rotate(r, k);
    ghost var q := r[k..] + r[..k];
    PushFront(entry, node, q);
    ghost var t := [entry, node] + q[1..];
    Unrotate(r, k, node, t);
    Rotate(t, if k == 0 then 0 else |t| - k);
  }

  lemma Unrotate(r: seq<Node>, k: nat, node: Node, t: seq<Node>)
    requires k < |r| && t == [r[k], node] + (r[k..] + r[..k])[1..]
    ensures var b := if k == 0 then 0 else |t| - k;
      b < |t| && t[b..] + t[..b] == r[..k + 1] + [node] + r[k + 1..]
  {
    assert (r[k..] + r[..k])[1..] == r[k + 1..] + r[..k];
    if k == 0 {
      assert t[0..] + t[..0] == t == r[..1] + [node] + r[1..];
    } else {
      assert t == [r[k], node] + r[k + 1..] + r[..k];
      assert t[|t| - k..] == r[..k] && t[..|t| - k] == [r[k], node] + r[k + 1..];
      assert r[..k] + [r[k]] == r[..k + 1];
    }
  }

  lemma Neighbours(r: seq<Node>, k: nat)
    requires Ring(r) && k < |r|
    ensures r[k].next in r && r[k].prev in r
  {
    var before := if k == 0 then |r| - 1 else k - 1;
    assert r[After(before, |r|)] == r[k];
  }

  /** Move an entry from one list to the front of another; both lists stay whole. */
  method MoveToFront(node: Node, head: Node, ghost from: seq<Node>, ghost k: nat, ghost to: seq<Node>)
    requires Ring(from) && 0 < k < |from| && from[k] == node
    requires Ring(to) && to[0] == head && forall n :: n in to ==> n !in from
    modifies from, to
    ensures Ring(from[..k] + from[k + 1..])
    ensures Ring([head, node] + to[1..])
  {
    Neighbours(from, k);
    Neighbours(to, 0);
    assert from[k] in from;
    Remove(node, from, k);
    assert Ring(to);
    ghost var left := from[..k] + from[k + 1..];
    assert node !in left by {
      assert forall i: nat :: i < |left| ==> left[i] == from[if i < k then i else i + 1];
    }
    assert forall n :: n in left ==> n in from;
    PushFront(head, node, to);
  }

  function Keep(s: seq<Node>, drop: Node -> bool): seq<Node>
  {
    if s == [] then [] else if drop(s[0]) then Keep(s[1..], drop) else [s[0]] + Keep(s[1..], drop)
  }

  /** list_for_each_safe with a body that removes the current entry or leaves it: every entry
      the list had is visited exactly once, in order, and the list keeps the others. */
  method RemoveWhere(head: Node, drop: Node -> bool, ghost r: seq<Node>) returns (ghost visited: seq<Node>)
    requires Ring(r) && r[0] == head
    modifies r
    ensures visited == r[1..]
    ensures Ring([head] + Keep(r[1..], drop))
  {
    visited := [];
    ghost var kept, rest := [], r[1..];
    var pos := head.next;
    var n := pos.next;
    ProgressStart(r, head, drop);
    while pos != head
      invariant Walking(head, kept, rest, pos) && n == pos.next
      invariant Progress(r, head, drop, visited, kept, rest)
      decreases |rest|
    {
      WalkEnds(head, kept, rest, pos);
      ProgressNext(r, head, drop, visited, kept, rest);
      visited := visited + [pos];
      kept := VisitOne(head, pos, n, drop, kept, rest, r);
      rest := rest[1..];
      pos := n;
      n := pos.next;
    }
    WalkEnds(head, kept, rest, pos);
    ProgressEnd(r, head, drop, visited, kept, rest);
  }

  ghost predicate Progress(r: seq<Node>, head: Node,
                           drop: Node -> bool, visited: seq<Node>, kept: seq<Node>, rest: seq<Node>)
  {
    && |r| > 0 && r[0] == head && visited + rest == r[1..] && kept + Keep(rest, drop) == Keep(r[1..], drop)
    && (forall x :: x in kept ==> x in r) && (forall x :: x in rest ==> x in r)
  }

  lemma ProgressStart(r: seq<Node>, head: Node, drop: Node -> bool)
    requires |r| > 0 && r[0] == head
    ensures [head] + [] + r[1..] == r && Progress(r, head, drop, [], [], r[1..])
  {
    assert [] + Keep(r[1..], drop) == Keep(r[1..], drop);
  }

  lemma ProgressEnd(r: seq<Node>, head: Node, drop: Node -> bool, visited: seq<Node>, kept: seq<Node>, rest: seq<Node>)
    requires Progress(r, head, drop, visited, kept, rest) && rest == []
    ensures visited == r[1..] && kept == Keep(r[1..], drop) && [head] + kept + rest == [head] + kept
  {
    assert kept + Keep(rest, drop) == kept && visited + rest == visited;
  }

  lemma ProgressNext(r: seq<Node>, head: Node, drop: Node -> bool, visited: seq<Node>, kept: seq<Node>, rest: seq<Node>)
    requires Progress(r, head, drop, visited, kept, rest) && rest != []
    ensures Progress(r, head, drop, visited + [rest[0]], if drop(rest[0]) then kept else kept + [rest[0]], rest[1..])
  {
    assert visited + [rest[0]] + rest[1..] == visited + rest;
    assert kept + ([rest[0]] + Keep(rest[1..], drop)) == kept + [rest[0]] + Keep(rest[1..], drop);
  }

  /** The walk is over exactly when nothing is left. */
  lemma WalkEnds(head: Node, kept: seq<Node>, rest: seq<Node>, pos: Node)
    requires Walking(head, kept, rest, pos)
    ensures pos == head <==> rest == []
  {
    var ring := [head] + kept + rest;
    assert rest != [] ==> ring[1 + |kept|] == rest[0] && ring[0] == head;
  }

  /** The list is the kept entries and then the rest, and pos is where the walk is. */
  ghost predicate Walking(head: Node, kept: seq<Node>, rest: seq<Node>, pos: Node)
    reads [head] + kept + rest
  {
    Ring([head] + kept + rest) && pos == if rest == [] then head else rest[0]
  }

  /** One round: pos is removed or kept, and the saved next entry is the first of the rest. */
  method VisitOne(head: Node, pos: Node, n: Node, drop: Node -> bool,
                  ghost kept: seq<Node>, ghost rest: seq<Node>, ghost all: seq<Node>)
    returns (ghost kept': seq<Node>)
    requires Walking(head, kept, rest, pos) && pos != head && n == pos.next
    requires head in all && (forall x :: x in kept ==> x in all) && (forall x :: x in rest ==> x in all)
    modifies all
    ensures Walking(head, kept', rest[1..], n)
    ensures kept' == if drop(pos) then kept else kept + [pos]
  {
    ghost var ring := [head] + kept + rest;
    ghost var k := 1 + |kept|;
    RoundFacts(head, kept, rest, all);
    kept' := kept;
    if drop(pos) {
      Neighbours(ring, k);
      assert pos.next in all && pos.prev in all;
      Remove(pos, ring, k);
    } else {
      kept' := kept + [pos];
    }
  }

  /** The ring of a walk around its current entry. */
  lemma RoundFacts(head: Node, kept: seq<Node>, rest: seq<Node>, all: seq<Node>)
    requires rest != [] && head in all && (forall x :: x in kept ==> x in all) && (forall x :: x in rest ==> x in all)
    ensures var ring, k := [head] + kept + rest, 1 + |kept|;
      && ring[k] == rest[0]
      && (rest[1..] == [] ==> After(k, |ring|) == 0) && (rest[1..] != [] ==> ring[After(k, |ring|)] == rest[1..][0])
      && ring[..k] + ring[k + 1..] == [head] + kept + rest[1..]
      && ring == [head] + (kept + [rest[0]]) + rest[1..]
      && (forall x :: x in ring ==> x in all)
      && ring[k] in ring
  {
    var ring, k := [head] + kept + rest, 1 + |kept|;
    assert forall x :: x in ring ==> x == head || x in kept || x in rest;
    assert ring[k + 1..] == rest[1..];
    assert ring[..k] == [head] + kept;
  }
}
