/** Sequence facts shared by the graph builder and the sorter: duplicate-free
    sequences, first occurrences, and insertion-ordered deduplication (the
    order in which a Python dict remembers its keys). */
module Seqs {

  /** No element occurs twice in s. */
  ghost predicate NoDup<T>(s: seq<T>) {
    forall i, j :: 0 <= i < j < |s| ==> s[i] != s[j]
  }

  /** The position of the first occurrence of x in s. */
  ghost function FirstIndex<T>(s: seq<T>, x: T): (k: nat)
    requires x in s
    ensures k < |s| && s[k] == x && x !in s[..k]
  {
    if x in s[..|s| - 1] then
      var k := FirstIndex(s[..|s| - 1], x);
      assert s[..|s| - 1][..k] == s[..k];
      k
    else
      |s| - 1
  }

  /** A first occurrence is unique: any position holding x with no x before it is FirstIndex. */
  lemma FirstIndexUnique<T>(s: seq<T>, x: T, k: nat)
    requires k < |s| && s[k] == x && x !in s[..k]
    ensures FirstIndex(s, x) == k
  {
  }

  /** Two duplicate-free sequences with no element in common concatenate to one. */
  lemma NoDupConcat<T>(a: seq<T>, b: seq<T>)
    requires NoDup(a) && NoDup(b)
    requires forall x :: x in a ==> x !in b
    ensures NoDup(a + b)
  {
    var c := a + b;
    forall i, j | 0 <= i < j < |c|
      ensures c[i] != c[j]
    {
      if i < |a| && j >= |a| {
        assert c[i] in a && c[j] == b[j - |a|];
      }
    }
  }

  /** Appending after an element does not move its first occurrence. */
  lemma FirstIndexOfPrefix<T>(s: seq<T>, m: nat, x: T)
    requires m <= |s| && x in s[..m]
    ensures FirstIndex(s, x) == FirstIndex(s[..m], x)
  {
    var f := FirstIndex(s[..m], x);
    assert s[..m][..f] == s[..f];
    FirstIndexUnique(s, x, f);
  }

  /** The elements of s that lie in keep, in the order of s. */
  ghost function Filter<T>(s: seq<T>, keep: set<T>): seq<T> {
    if s == [] then [] else Filter(s[..|s| - 1], keep) + if s[|s| - 1] in keep then [s[|s| - 1]] else []
  }

  /** x added at the end of d unless d already holds it. */
  function AddLast<T(==)>(d: seq<T>, x: T): seq<T> {
    if x in d then d else d + [x]
  }

  /** The elements of s in the order of their first occurrence, each once. */
  function Dedup<T(==,!new)>(s: seq<T>): (d: seq<T>)
    ensures NoDup(d)
    ensures forall x :: x in d <==> x in s
  {
    if s == [] then []
    else
      var p := s[..|s| - 1];
      assert s == p + [s[|s| - 1]];
      AddLast(Dedup(p), s[|s| - 1])
  }

  /** Deduplicating two more elements inserts each of them unless already present. */
  lemma DedupTwoMore<T(!new)>(s: seq<T>, a: T, b: T)
    ensures Dedup(s + [a, b]) == AddLast(AddLast(Dedup(s), a), b)
  {
    var t, u := s + [a], s + [a, b];
    assert u[..|u| - 1] == t && u[|u| - 1] == b;
    assert t[..|t| - 1] == s && t[|t| - 1] == a;
  }

  /** Dedup(s) lists the elements of s by increasing position of first occurrence. */
  lemma {:induction false} DedupInFirstOccurrenceOrder<T(!new)>(s: seq<T>, i: nat, j: nat)
    requires i < j < |Dedup(s)|
    ensures FirstIndex(s, Dedup(s)[i]) < FirstIndex(s, Dedup(s)[j])
  {
    var n := |s|;
    var p := s[..n - 1];
    var d := Dedup(p);
    FirstIndexOfPrefix(s, n - 1, Dedup(s)[i]);
    if j < |d| {
      DedupInFirstOccurrenceOrder(p, i, j);
      FirstIndexOfPrefix(s, n - 1, Dedup(s)[j]);
    } else {
      assert Dedup(s)[j] == s[n - 1] && s[n - 1] !in p;
      FirstIndexUnique(s, s[n - 1], n - 1);
    }
  }

  /** A set drawn from the elements of s has at most |s| members, and fewer
      when some element of s is missing from it. */
  lemma {:induction false} CardinalityBound<T>(a: set<T>, s: seq<T>, missing: T)
    requires forall x :: x in a ==> x in s
    ensures |a| <= |s|
    ensures missing in s && missing !in a ==> |a| < |s|
  {
    if s != [] {
      var y := s[|s| - 1];
      var p := s[..|s| - 1];
      assert s == p + [y];
      var rest := a - {y};
      assert forall x :: x in rest ==> x in p;
      if missing in s && missing !in a && missing != y {
        assert missing in p;
        CardinalityBound(rest, p, missing);
      } else {
        CardinalityBound(rest, p, y);
      }
      assert |a| <= |rest| + 1 by {
        if y in a { assert a == rest + {y}; } else { assert a == rest; }
      }
    } else {
      assert a == {};
    }
  }
}
