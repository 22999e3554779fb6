// The intrusive circular doubly linked list of flist.h.  IsList(head, s) says that the nodes of
// s, in this order, hang off the list head; each operation is proved to refine its operation on
// sequences.
module FList {
  import opened Wrappers

  class Node {
    var next: Node?
    var prev: Node?

    // INIT_FLIST_HEAD
    constructor ()
      ensures IsList(this, [])
    {
      next := this;
      prev := this;
    }
  }

  // Consecutive nodes point to each other.
  ghost predicate Chain(c: seq<Node>)
    reads c
  {
    && (forall i {:trigger c[i].next} :: 0 <= i < |c| - 1 ==> c[i].next == c[i + 1])
    && (forall i {:trigger c[i].prev} :: 0 < i < |c| ==> c[i].prev == c[i - 1])
  }

  // A chain whose ends point to each other.
  ghost predicate Linked(ring: seq<Node>)
    requires ring != []
    reads ring
  {
    Chain(ring) && ring[|ring| - 1].next == ring[0] && ring[0].prev == ring[|ring| - 1]
  }

  ghost predicate IsList(head: Node, s: seq<Node>)
    reads head, s
  {
    var ring := [head] + s;
    Distinct(ring) && Linked(ring)
  }

  // The nodes of a list are determined by its head.
  lemma ListUnique(head: Node, s: seq<Node>, t: seq<Node>)
    requires IsList(head, s) && IsList(head, t)
    ensures s == t
  {
    var a, b := [head] + s, [head] + t;
    if |s| <= |t| {
      PrefixUnique(a, b, |s|);
      if |s| < |t| {
        assert false;
      }
    } else {
      PrefixUnique(b, a, |t|);
      assert false;
    }
    assert a == b && s == a[1..] && t == b[1..];
  }

  lemma {:induction false} PrefixUnique(a: seq<Node>, b: seq<Node>, n: nat)
    requires n < |a| && n < |b| && a[0] == b[0] && Linked(a) && Linked(b)
    ensures forall i :: 0 <= i <= n ==> a[i] == b[i]
  {
    if n > 0 {
      PrefixUnique(a, b, n - 1);
      assert a[n - 1].next == a[n] && b[n - 1].next == b[n];
    }
  }

  // The end of one chain and the start of another, or of the same one, are made to point to each other.
  method Link(a: Node, b: Node, ghost x: seq<Node>, ghost y: seq<Node>)
    requires x != [] && y != [] && Chain(x) && Chain(y) && Distinct(x) && (x == y || Distinct(x + y))
    requires a == x[|x| - 1] && b == y[0]
    modifies a`next, b`prev
    ensures Chain(x) && Chain(y) && a.next == b && b.prev == a
  {
    assert forall i :: 0 <= i < |y| && x != y ==> (x + y)[|x| + i] == y[i];
    assert forall i :: 0 <= i < |x| && x != y ==> (x + y)[i] == x[i];
    b.prev := a;
    a.next := b;
  }

  lemma DistinctParts(x: seq<Node>, y: seq<Node>)
    requires Distinct(x + y)
    ensures Distinct(x) && Distinct(y) && forall n :: n in x ==> n !in y
  {
    var all := x + y;
    assert forall i :: 0 <= i < |x| ==> all[i] == x[i];
    assert forall i :: 0 <= i < |y| ==> all[|x| + i] == y[i];
  }

  // __flist_add: the four assignments put a node between the two parts of a ring.
  method Insert(entry: Node, prev: Node, next: Node, ghost before: seq<Node>, ghost after: seq<Node>)
    requires before != [] && Distinct(before + after) && entry !in before + after && Chain(before) && Chain(after)
    requires prev == before[|before| - 1] && next == if after != [] then after[0] else before[0]
    requires after != [] ==> after[|after| - 1].next == before[0] && before[0].prev == after[|after| - 1]
    modifies entry, prev, next
    ensures Linked(before + [entry] + after)
  {
    ghost var start, end := before[0], if after != [] then after[|after| - 1] else entry;
    DistinctParts(before, after);
    assert prev in before && start in before && (after != [] ==> next in after && end in after);
    DistinctCons(entry, if after != [] then after else before);
    Link(entry, next, [entry], if after != [] then after else before);
    DistinctSnoc(before, entry);
    Link(prev, entry, before, [entry]);
    JoinChains(before, [entry]);
    if after != [] {
      JoinChains(before + [entry], after);
    } else {
      assert before + [entry] + after == before + [entry];
    }
    CloseRing(before + [entry] + after, start, end);
  }

  // Between ring positions k and k+1.
  method AddBetween(entry: Node, prev: Node, next: Node, ghost head: Node, ghost s: seq<Node>, ghost k: nat)
    requires IsList(head, s) && k <= |s| && entry != head && entry !in s
    requires prev == ([head] + s)[k] && next == ([head] + s + [head])[k + 1]
    modifies entry, prev, next
    ensures IsList(head, s[..k] + [entry] + s[k..])
  {
    ghost var before, after := ([head] + s)[..k + 1], s[k..];
    Around(head, s, k);
    Insert(entry, prev, next, before, after);
    InsertDistinct(head, s, entry, k);
    assert before + [entry] + after == [head] + (s[..k] + [entry] + s[k..]);
  }

  // The two parts of a list's ring around the gap behind ring position k.
  lemma Around(head: Node, s: seq<Node>, k: nat)
    requires IsList(head, s) && k <= |s|
    ensures var before, after := ([head] + s)[..k + 1], s[k..];
            && before != [] && before + after == [head] + s && Chain(before) && Chain(after)
            && before[|before| - 1] == ([head] + s)[k]
            && ([head] + s + [head])[k + 1] == (if after != [] then after[0] else before[0])
            && (after != [] ==> after[|after| - 1].next == before[0] && before[0].prev == after[|after| - 1])
            && forall n :: n in before + after ==> n == head || n in s
  {
    var ring := [head] + s;
    Halves(ring, k + 1);
    assert ring[k + 1..] == s[k..] && ring[..k + 1] + s[k..] == ring;
    if k < |s| {
      assert s[k..][|s[k..]| - 1] == ring[|ring| - 1];
    }
  }

  // The two parts of a chain without repetition.
  lemma Halves(ring: seq<Node>, k: nat)
    requires Chain(ring) && Distinct(ring) && 0 < k <= |ring|
    ensures Chain(ring[..k]) && Chain(ring[k..]) && Distinct(ring[..k]) && Distinct(ring[k..])
    ensures forall n :: n in ring[..k] ==> n in ring && n !in ring[k..]
    ensures forall n :: n in ring[k..] ==> n in ring
  {
    SubChain(ring, 0, k);
    SubChain(ring, k, |ring|);
    assert ring[0..k] == ring[..k] && ring[k..|ring|] == ring[k..];
    assert ring == ring[..k] + ring[k..];
    DistinctParts(ring[..k], ring[k..]);
  }

  lemma DistinctSnoc(s: seq<Node>, a: Node)
    requires Distinct(s) && a !in s
    ensures Distinct(s + [a])
  {}

  lemma InsertDistinct(head: Node, s: seq<Node>, entry: Node, k: nat)
    requires Distinct([head] + s) && entry != head && entry !in s && k <= |s|
    ensures Distinct([head] + (s[..k] + [entry] + s[k..]))
  {
    DistinctCons(head, s);
    var t := s[..k] + [entry] + s[k..];
    assert forall i :: 0 <= i < |t| ==> t[i] == if i < k then s[i] else if i == k then entry else s[i - 1];
    DistinctCons(head, t);
  }

  method Add(entry: Node, head: Node, ghost s: seq<Node>)
    requires IsList(head, s) && entry != head && entry !in s
    modifies entry, head, head.next
    ensures IsList(head, [entry] + s)
  {
    assert head == ([head] + s)[0];
    AddBetween(entry, head, head.next, head, s, 0);
    assert s[..0] + [entry] + s[0..] == [entry] + s;
  }

  method AddTail(entry: Node, head: Node, ghost s: seq<Node>)
    requires IsList(head, s) && entry != head && entry !in s
    modifies entry, head, head.prev
    ensures IsList(head, s + [entry])
  {
    AddBetween(entry, head.prev, head, head, s, |s|);
    assert s[..|s|] + [entry] + s[|s|..] == s + [entry];
  }

  // Where a node to be removed is: at position k of a list, or alone, as flist_del_init leaves it.
  datatype Place = Alone | At(head: Node, s: seq<Node>, k: nat)

  ghost predicate Sits(entry: Node, place: Place)
    reads entry, if place.At? then {place.head} + (set x | x in place.s) else {}
  {
    match place
    case Alone => IsList(entry, [])
    case At(head, s, k) => IsList(head, s) && k < |s| && s[k] == entry
  }

  // The list the node leaves behind.
  ghost predicate Left(place: Place)
    reads if place.At? then {place.head} + (set x | x in place.s) else {}
  {
    place.At? && place.k < |place.s| ==> IsList(place.head, place.s[..place.k] + place.s[place.k + 1..])
  }

  // __flist_del: the node between `before` and `after` is taken out of their ring.
  method Unlink(prev: Node, next: Node, ghost before: seq<Node>, ghost after: seq<Node>)
    requires before != [] && Distinct(before + after) && Chain(before) && Chain(after)
    requires prev == before[|before| - 1] && next == if after != [] then after[0] else before[0]
    requires after != [] ==> after[|after| - 1].next == before[0] && before[0].prev == after[|after| - 1]
    modifies prev, next
    ensures Linked(before + after)
  {
    ghost var all := before + after;
    assert forall i :: 0 <= i < |before| ==> all[i] == before[i];
    assert forall i :: 0 <= i < |after| ==> all[|before| + i] == after[i];
    next.prev := prev;
    prev.next := next;
    if after != [] {
      JoinChains(before, after);
    }
  }

  // The two parts of a ring around the node at position k of the list.
  lemma Cut(head: Node, s: seq<Node>, k: nat)
    requires IsList(head, s) && k < |s|
    ensures var before, after := ([head] + s)[..k + 1], s[k + 1..];
            && before + after == [head] + (s[..k] + s[k + 1..])
            && Chain(before) && Chain(after) && Distinct(before + after) && s[k] !in before + after
            && s[k].prev == before[k] && s[k].next == (if after != [] then after[0] else before[0])
            && (after != [] ==> after[|after| - 1].next == before[0] && before[0].prev == after[|after| - 1])
  {
    var ring := [head] + s;
    SubChain(ring, 0, k + 1);
    SubChain(ring, k + 2, |ring|);
    assert ring[0..k + 1] == ring[..k + 1] && ring[k + 2..|ring|] == s[k + 1..];
    CutEnds(head, s, k);
    CutDistinct(ring, k + 1);
  }

  // What the node at position k and the two parts point to.
  lemma CutEnds(head: Node, s: seq<Node>, k: nat)
    requires IsList(head, s) && k < |s|
    ensures var before, after := ([head] + s)[..k + 1], s[k + 1..];
            && s[k].prev == before[k] && s[k].next == (if after != [] then after[0] else before[0])
            && (after != [] ==> after[|after| - 1].next == before[0] && before[0].prev == after[|after| - 1])
  {
    Neighbours(head, s, k);
  }

  lemma CutDistinct(ring: seq<Node>, k: nat)
    requires Distinct(ring) && k < |ring|
    ensures Distinct(ring[..k] + ring[k + 1..]) && ring[k] !in ring[..k] + ring[k + 1..]
  {
    var all := ring[..k] + ring[k + 1..];
    assert forall i :: 0 <= i < |all| ==> all[i] == ring[if i < k then i else i + 1];
  }

  method Del(entry: Node, ghost place: Place)
    requires Sits(entry, place) && place.At?
    modifies entry, entry.prev, entry.next
    ensures Left(place)
    ensures entry.next == null && entry.prev == null
  {
    Cut(place.head, place.s, place.k);
    Unlink(entry.prev, entry.next, ([place.head] + place.s)[..place.k + 1], place.s[place.k + 1..]);
    entry.next := null;
    entry.prev := null;
  }

  method DelInit(entry: Node, ghost place: Place)
    requires Sits(entry, place)
    modifies entry, entry.prev, entry.next
    ensures IsList(entry, []) && Left(place)
  {
    ghost var before, after: seq<Node> := [entry], [];
    if place.At? {
      Cut(place.head, place.s, place.k);
      before, after := ([place.head] + place.s)[..place.k + 1], place.s[place.k + 1..];
    }
    Unlink(entry.prev, entry.next, before, after);
    entry.next := entry;
    entry.prev := entry;
  }

  lemma Neighbours(head: Node, s: seq<Node>, k: nat)
    requires IsList(head, s) && k < |s|
    ensures s[k].prev == ([head] + s)[k] && s[k].next == ([head] + s + [head])[k + 2]
  {
    var ring := [head] + s;
    assert ring[k + 1] == s[k];
    assert ring[k + 1].prev == ring[k];
    if k + 1 < |s| {
      assert ring[k + 1].next == ring[k + 2];
    }
  }

  lemma HeadNotInside(head: Node, s: seq<Node>)
    requires Distinct([head] + s)
    ensures head !in s
  {
    DistinctCons(head, s);
  }

  method Empty(head: Node, ghost s: seq<Node>) returns (empty: bool)
    requires IsList(head, s)
    ensures empty <==> s == []
  {
    ghost var ring := [head] + s;
    assert s != [] ==> ring[0].next == ring[1];
    empty := head.next == head;
  }

  // flist_for_each visits exactly the nodes of the list, in order.
  method ForEach(head: Node, ghost s: seq<Node>) returns (visited: seq<Node>)
    requires IsList(head, s)
    ensures visited == s
  {
    ghost var ring := [head] + s + [head];
    visited := [];
    var pos := head.next;
    assert pos == ring[1] by { assert ([head] + s)[0] == head; }
    while pos != head
      invariant |visited| <= |s| && visited == s[..|visited|]
      invariant pos == ring[|visited| + 1]
      decreases |s| - |visited|
    {
      var k := |visited|;
      Neighbours(head, s, k);
      visited := visited + [pos];
      pos := pos.next;
    }
    HeadNotInside(head, s);
  }

  // The four assignments of __flist_splice: `ls` is threaded between the two halves of a ring.
  method Relink(first: Node, last: Node, prev: Node, next: Node, ghost before: seq<Node>, ghost ls: seq<Node>, ghost after: seq<Node>)
    requires before != [] && ls != [] && Distinct(before + ls + after)
    requires Chain(before) && Chain(ls) && Chain(after)
    requires first == ls[0] && last == ls[|ls| - 1] && prev == before[|before| - 1]
    requires next == if after != [] then after[0] else before[0]
    requires after != [] ==> after[|after| - 1].next == before[0] && before[0].prev == after[|after| - 1]
    modifies first, last, prev, next
    ensures Linked(before + ls + after)
  {
    ghost var front := before + ls;
    DistinctParts(front, after);
    DistinctParts(before, ls);
    ghost var start, end := before[0], if after != [] then after[|after| - 1] else last;
    assert prev in front && first in front && last in front && prev in before && first in ls && start in before;
    assert after != [] ==> end in after && next in after;
    Link(prev, first, before, ls);
    JoinChains(before, ls);
    assert front[|front| - 1] == last && front[0] == start;
    Link(last, next, front, if after != [] then after else front);
    assert end.next == start && start.prev == end;
    if after != [] {
      JoinChains(front, after);
    } else {
      assert front + after == front;
    }
    CloseRing(front + after, start, end);
  }

  lemma CloseRing(ring: seq<Node>, start: Node, end: Node)
    requires ring != [] && Chain(ring) && ring[0] == start && ring[|ring| - 1] == end
    requires end.next == start && start.prev == end
    ensures Linked(ring)
  {}

  // __flist_splice of a non-empty list between ring positions k and k+1 of another.
  method SpliceBetween(list: Node, prev: Node, next: Node, ghost ls: seq<Node>, ghost head: Node, ghost hs: seq<Node>, ghost k: nat)
    requires IsList(list, ls) && ls != [] && IsList(head, hs) && k <= |hs|
    requires Apart(list, ls, head, hs)
    requires prev == ([head] + hs)[k] && next == ([head] + hs + [head])[k + 1]
    modifies list.next, list.prev, prev, next
    ensures IsList(head, hs[..k] + ls + hs[k..])
  {
    ghost var lring, hring := [list] + ls, [head] + hs;
    ghost var before, after := hring[..k + 1], hring[k + 1..];
    SubChain(lring, 1, |lring|);
    SubChain(hring, 0, k + 1);
    SubChain(hring, k + 1, |hring|);
    assert lring[1..|lring|] == ls && hring[k + 1..|hring|] == after && hring[0..k + 1] == before;
    DistinctSplice(list, ls, head, hs, k);
    assert before + ls + after == [head] + (hs[..k] + ls + hs[k..]);
    FirstAndLast(list, ls);
    if hs != [] {
      FirstAndLast(head, hs);
    }
    Relink(list.next, list.prev, prev, next, before, ls, after);
  }

  lemma SubChain(c: seq<Node>, i: nat, j: nat)
    requires Chain(c) && i <= j <= |c|
    ensures Chain(c[i..j])
  {
    var d := c[i..j];
    assert forall k :: 0 <= k < |d| ==> d[k] == c[i + k];
  }

  lemma FirstAndLast(head: Node, s: seq<Node>)
    requires IsList(head, s) && s != []
    ensures head.next == s[0] && head.prev == s[|s| - 1] && s[|s| - 1].next == head
  {
    var ring := [head] + s;
    assert ring[0] == head && ring[1] == s[0] && ring[|s|] == s[|s| - 1];
    assert ring[0].next == ring[1];
  }

  lemma JoinChains(a: seq<Node>, b: seq<Node>)
    requires a != [] && b != [] && Chain(a) && Chain(b)
    requires a[|a| - 1].next == b[0] && b[0].prev == a[|a| - 1]
    ensures Chain(a + b)
  {
    var c := a + b;
    assert forall i :: 0 <= i < |a| ==> c[i] == a[i];
    assert forall i :: |a| <= i < |c| ==> c[i] == b[i - |a|];
  }

  lemma DistinctSplice(list: Node, ls: seq<Node>, head: Node, hs: seq<Node>, k: nat)
    requires Distinct([list] + ls) && Distinct([head] + hs) && Apart(list, ls, head, hs) && k <= |hs|
    ensures Distinct([head] + (hs[..k] + ls + hs[k..]))
  {
    DistinctCons(list, ls);
    DistinctCons(head, hs);
    var t := hs[..k] + ls + hs[k..];
    forall i, j | 0 <= i < j < |t|
      ensures t[i] != t[j]
    {
      var ti := if i < k then hs[i] else if i < k + |ls| then ls[i - k] else hs[i - |ls|];
      var tj := if j < k then hs[j] else if j < k + |ls| then ls[j - k] else hs[j - |ls|];
      assert t[i] == ti && t[j] == tj;
      if k <= i < k + |ls| {
        assert ti in ls;
      } else {
        assert ti in hs;
      }
      if k <= j < k + |ls| {
        assert tj in ls;
      } else {
        assert tj in hs;
      }
    }
    DistinctCons(head, t);
  }

  // INIT_FLIST_HEAD of a head whose nodes another list has taken over.
  method Reinit(list: Node, ghost head: Node, ghost s: seq<Node>)
    requires IsList(head, s) && list != head && list !in s
    modifies list
    ensures IsList(list, []) && IsList(head, s)
  {
    list.next := list;
    list.prev := list;
  }

  ghost predicate Apart(list: Node, ls: seq<Node>, head: Node, hs: seq<Node>) {
    list != head && list !in hs && head !in ls && forall x :: x in ls ==> x !in hs
  }

  method Splice(list: Node, head: Node, ghost ls: seq<Node>, ghost hs: seq<Node>)
    requires IsList(list, ls) && IsList(head, hs) && Apart(list, ls, head, hs)
    modifies list.next, list.prev, head, head.next
    ensures IsList(head, ls + hs)
  {
    var empty := Empty(list, ls);
    if !empty {
      ghost var ring := [head] + hs;
      assert ring[0] == head;
      SpliceBetween(list, head, head.next, ls, head, hs, 0);
      assert hs[..0] + ls + hs[0..] == ls + hs;
    } else {
      assert ls + hs == hs;
    }
  }

  method SpliceTail(list: Node, head: Node, ghost ls: seq<Node>, ghost hs: seq<Node>)
    requires IsList(list, ls) && IsList(head, hs) && Apart(list, ls, head, hs)
    modifies list.next, list.prev, head, head.prev
    ensures IsList(head, hs + ls)
  {
    var empty := Empty(list, ls);
    if !empty {
      SpliceBetween(list, head.prev, head, ls, head, hs, |hs|);
      assert hs[..|hs|] + ls + hs[|hs|..] == hs + ls;
    } else {
      assert hs + ls == hs;
    }
  }

  method SpliceInit(list: Node, head: Node, ghost ls: seq<Node>, ghost hs: seq<Node>)
    requires IsList(list, ls) && IsList(head, hs) && Apart(list, ls, head, hs)
    modifies list, list.next, list.prev, head, head.next
    ensures IsList(head, ls + hs) && IsList(list, [])
  {
    var empty := Empty(list, ls);
    if !empty {
      ghost var ring := [head] + hs;
      assert ring[0] == head;
      SpliceBetween(list, head, head.next, ls, head, hs, 0);
      assert hs[..0] + ls + hs[0..] == ls + hs;
      DistinctCons(list, ls);
      Reinit(list, head, ls + hs);
    } else {
      assert ls + hs == hs;
    }
  }

  method SpliceTailInit(list: Node, head: Node, ghost ls: seq<Node>, ghost hs: seq<Node>)
    requires IsList(list, ls) && IsList(head, hs) && Apart(list, ls, head, hs)
    modifies list, list.next, list.prev, head, head.prev
    ensures IsList(head, hs + ls) && IsList(list, [])
  {
    var empty := Empty(list, ls);
    if !empty {
      SpliceBetween(list, head.prev, head, ls, head, hs, |hs|);
      assert hs[..|hs|] + ls + hs[|hs|..] == hs + ls;
      DistinctCons(list, ls);
      Reinit(list, head, hs + ls);
    } else {
      assert hs + ls == hs;
    }
  }
}
