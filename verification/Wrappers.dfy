// The usual Some/None type, and facts about finite collections used by several modules.
module Wrappers {
  datatype Option<+T> = None | Some(value: T)

  // Sequences without repetition: the shape of a doubly linked list seen as a sequence.
  ghost predicate Distinct<T>(s: seq<T>) {
    forall i, j :: 0 <= i < j < |s| ==> s[i] != s[j]
  }

  lemma DistinctCons<T>(a: T, s: seq<T>)
    ensures Distinct([a] + s) <==> a !in s && Distinct(s)
  {
    var c := [a] + s;
    assert c[0] == a && forall i :: 0 <= i < |s| ==> s[i] == c[i + 1];
    if a !in s && Distinct(s) {
      forall i, j | 0 <= i < j < |c|
        ensures c[i] != c[j]
      {
        assert c[j] == s[j - 1];
        assert i > 0 ==> c[i] == s[i - 1];
      }
    }
  }

  // Unlinking an element of a list.
  function Without<T(==)>(l: seq<T>, x: T): seq<T> {
    if l == [] then [] else if l[0] == x then l[1..] else [l[0]] + Without(l[1..], x)
  }

  lemma {:induction false} WithoutMember<T>(l: seq<T>, x: T)
    requires Distinct(l) && x in l
    ensures Distinct(Without(l, x)) && |Without(l, x)| == |l| - 1
    ensures forall y :: y in Without(l, x) <==> y in l && y != x
    ensures forall i :: 0 <= i < |l| - 1 ==> Without(l, x)[i] in l && Without(l, x)[i] != x
    ensures forall i :: 0 <= i < |l| && l[i] != x ==> l[i] in Without(l, x)
  {
    assert l == [l[0]] + l[1..];
    DistinctCons(l[0], l[1..]);
    if l[0] != x {
      WithoutMember(l[1..], x);
      DistinctCons(l[0], Without(l[1..], x));
    }
  }

  lemma {:induction false} WithoutWithin<T>(l: seq<T>, x: T)
    ensures forall y :: y in Without(l, x) ==> y in l
  {
    if l != [] && l[0] != x {
      WithoutWithin(l[1..], x);
    }
  }

  lemma TakeUpdated<T>(s: seq<T>, n: nat, x: T)
    requires n < |s|
    ensures s[n := x][..n] == s[..n] && s[n := x][..n + 1] == s[..n] + [x]
  {}

  // A set with at most one element has no two different members.
  lemma AtMostOne<T>(s: set<T>, a: T, b: T)
    requires |s| <= 1 && a in s && b in s
    ensures a == b
  {
    if a != b {
      assert {a, b} <= s;
      CardinalitySubset({a, b}, s);
    }
  }

  lemma {:induction false} CardinalitySubset<T>(a: set<T>, b: set<T>)
    requires a <= b
    ensures |a| <= |b|
    decreases a
  {
    if a != {} {
      var x :| x in a;
      CardinalitySubset(a - {x}, b - {x});
    }
  }
}
