/** Worked inputs for sort_tasks, over any distinct tasks a, b, c, d: what
    the sorter returns on a chain, a diamond, a repeated pair and the empty
    list, and that a two-task cycle and a self-loop end in Catch22. */
module Scenarios {
  import opened TaskGraph
  import opened TopoSort

  function Chain<T>(a: T, b: T, c: T): seq<Pair<T>> {
    [Pair(a, b), Pair(b, c)]
  }

  function Diamond<T>(a: T, b: T, c: T, d: T): seq<Pair<T>> {
    [Pair(a, b), Pair(a, c), Pair(b, d), Pair(c, d)]
  }

  function Repeated<T>(a: T, b: T): seq<Pair<T>> {
    [Pair(a, b), Pair(a, b)]
  }

  function TwoCycle<T>(a: T, b: T): seq<Pair<T>> {
    [Pair(a, b), Pair(b, a)]
  }

  function SelfLoop<T>(x: T): seq<Pair<T>> {
    [Pair(x, x)]
  }

  /** The tasks emitted in sweep k, written out for two, three and four keys. */
  lemma BatchOfTwo<T(!new)>(pairs: seq<Pair<T>>, ks: seq<T>, k: nat)
    requires |ks| == 2
    ensures Batch(pairs, ks, k) ==
      (if EmittedIn(pairs, k, ks[0]) then [ks[0]] else []) +
      (if EmittedIn(pairs, k, ks[1]) then [ks[1]] else [])
  {
    var one := ks[..1];
    assert one[..0] == [] && one == [ks[0]];
    assert Batch(pairs, one, k) == if EmittedIn(pairs, k, ks[0]) then [ks[0]] else [];
  }

  lemma BatchOfThree<T(!new)>(pairs: seq<Pair<T>>, ks: seq<T>, k: nat)
    requires |ks| == 3
    ensures Batch(pairs, ks, k) ==
      (if EmittedIn(pairs, k, ks[0]) then [ks[0]] else []) +
      (if EmittedIn(pairs, k, ks[1]) then [ks[1]] else []) +
      (if EmittedIn(pairs, k, ks[2]) then [ks[2]] else [])
  {
    BatchOfTwo(pairs, ks[..2], k);
  }

  lemma BatchOfFour<T(!new)>(pairs: seq<Pair<T>>, ks: seq<T>, k: nat)
    requires |ks| == 4
    ensures Batch(pairs, ks, k) ==
      (if EmittedIn(pairs, k, ks[0]) then [ks[0]] else []) +
      (if EmittedIn(pairs, k, ks[1]) then [ks[1]] else []) +
      (if EmittedIn(pairs, k, ks[2]) then [ks[2]] else []) +
      (if EmittedIn(pairs, k, ks[3]) then [ks[3]] else [])
  {
    BatchOfThree(pairs, ks[..3], k);
  }

  /** The predecessor that the pair q gives t, if any. */
  function PredecessorFrom<T(==)>(q: Pair<T>, t: T): seq<T> {
    if q.dep == t then [q.pred] else []
  }

  /** The predecessors of t, written out for two and four pairs. */
  lemma PredecessorsOfTwo<T(!new)>(pairs: seq<Pair<T>>, t: T)
    requires |pairs| == 2
    ensures Predecessors(pairs, t) == PredecessorFrom(pairs[0], t) + PredecessorFrom(pairs[1], t)
  {
    var one := pairs[..1];
    assert one[..0] == [] && one == [pairs[0]];
    assert Predecessors(one, t) == PredecessorFrom(pairs[0], t);
  }

  lemma PredecessorsOfFour<T(!new)>(pairs: seq<Pair<T>>, t: T)
    requires |pairs| == 4
    ensures Predecessors(pairs, t) ==
      PredecessorFrom(pairs[0], t) + PredecessorFrom(pairs[1], t) + PredecessorFrom(pairs[2], t) + PredecessorFrom(pairs[3], t)
  {
    var three := pairs[..3];
    PredecessorsOfTwo(three[..2], t);
    assert three[..2][..2] == three[..2] && three[..2][0] == pairs[0] && three[..2][1] == pairs[1];
  }

  /** When every key in ks is ready within three sweeps, the reference order
      is the three batches one after another and the pairs are not cyclic. */
  lemma ThreeSweeps<T(!new)>(pairs: seq<Pair<T>>, ks: seq<T>, b0: seq<T>, b1: seq<T>, b2: seq<T>)
    requires Keys(pairs) == ks
    requires forall i :: 0 <= i < |ks| ==> ReadyBy(pairs, 3, ks[i])
    requires Batch(pairs, ks, 0) == b0 && Batch(pairs, ks, 1) == b1 && Batch(pairs, ks, 2) == b2
    ensures !Cyclic(pairs) && Schedule(pairs) == b0 + b1 + b2
  {
    assert Rounds(pairs, ks, 2) == b0 + b1 by {
      assert Rounds(pairs, ks, 1) == b0;
    }
    forall x | x in Keys(pairs)
      ensures ReadyBy(pairs, 3, x)
    {
      var i :| 0 <= i < |ks| && ks[i] == x;
    }
    AllReady(pairs, 3);
  }

  // ----- a -> b -> c -----

  lemma ChainKeys<T(!new)>(a: T, b: T, c: T)
    requires a != b && b != c && a != c
    ensures Keys(Chain(a, b, c)) == [a, b, c]
  {
    var p := Chain(a, b, c);
    assert p[..1][..0] == [];
    assert Keys(p[..1]) == [a, b];
  }

  lemma ChainReadiness<T(!new)>(a: T, b: T, c: T)
    requires a != b && b != c && a != c
    ensures ReadyBy(Chain(a, b, c), 1, a) && !ReadyBy(Chain(a, b, c), 1, b) && !ReadyBy(Chain(a, b, c), 1, c)
    ensures ReadyBy(Chain(a, b, c), 2, b) && !ReadyBy(Chain(a, b, c), 2, c)
    ensures ReadyBy(Chain(a, b, c), 3, a) && ReadyBy(Chain(a, b, c), 3, b) && ReadyBy(Chain(a, b, c), 3, c)
  {
    var p := Chain(a, b, c);
    PredecessorsOfTwo(p, a);
    PredecessorsOfTwo(p, b);
    PredecessorsOfTwo(p, c);
    assert Predecessors(p, a) == [];
    assert Predecessors(p, b) == [a];
    assert Predecessors(p, c) == [b];
    assert !ReadyBy(p, 0, a) && !ReadyBy(p, 0, b);
    assert ReadyBy(p, 1, a) && ReadyBy(p, 2, a);
    assert a in Predecessors(p, b) && !ReadyBy(p, 1, b);
    assert ReadyBy(p, 2, b);
    assert b in Predecessors(p, c) && !ReadyBy(p, 2, c);
  }

  lemma ChainBatches<T(!new)>(a: T, b: T, c: T)
    requires a != b && b != c && a != c
    ensures Batch(Chain(a, b, c), [a, b, c], 0) == [a]
    ensures Batch(Chain(a, b, c), [a, b, c], 1) == [b]
    ensures Batch(Chain(a, b, c), [a, b, c], 2) == [c]
  {
    ChainReadiness(a, b, c);
    BatchOfThree(Chain(a, b, c), [a, b, c], 0);
    BatchOfThree(Chain(a, b, c), [a, b, c], 1);
    BatchOfThree(Chain(a, b, c), [a, b, c], 2);
  }

  lemma ChainSettled<T(!new)>(a: T, b: T, c: T)
    requires a != b && b != c && a != c
    ensures forall i :: 0 <= i < 3 ==> ReadyBy(Chain(a, b, c), 3, [a, b, c][i])
  {
    ChainReadiness(a, b, c);
  }

  /** A chain is emitted one task per sweep. */
  lemma ChainSchedule<T(!new)>(a: T, b: T, c: T)
    requires a != b && b != c && a != c
    ensures !Cyclic(Chain(a, b, c)) && Schedule(Chain(a, b, c)) == [a, b, c]
  {
    assert [a] + [b] + [c] == [a, b, c];
    ChainKeys(a, b, c);
    ChainSettled(a, b, c);
    ChainBatches(a, b, c);
    ThreeSweeps(Chain(a, b, c), [a, b, c], [a], [b], [c]);
  }

  method SortChain<T(==,!new)>(a: T, b: T, c: T) returns (r: Outcome<T>)
    requires a != b && b != c && a != c
    ensures r == Sorted([a, b, c])
  {
    r := SortTasks(Chain(a, b, c));
    ChainSchedule(a, b, c);
  }

  // ----- a -> {b, c} -> d -----

  predicate Distinct4<T(==)>(a: T, b: T, c: T, d: T) {
    a != b && a != c && a != d && b != c && b != d && c != d
  }

  lemma DiamondKeys<T(!new)>(a: T, b: T, c: T, d: T)
    requires Distinct4(a, b, c, d)
    ensures Keys(Diamond(a, b, c, d)) == [a, b, c, d]
  {
    var p := Diamond(a, b, c, d);
    var p1, p2, p3 := p[..1], p[..2], p[..3];
    assert p1[..0] == [] && p2[..1] == p1 && p3[..2] == p2;
    assert Keys(p1) == [a, b];
    assert Keys(p2) == [a, b, c];
    assert Keys(p3) == [a, b, c, d];
  }

  lemma DiamondPredecessors<T(!new)>(a: T, b: T, c: T, d: T)
    requires Distinct4(a, b, c, d)
    ensures Predecessors(Diamond(a, b, c, d), a) == []
    ensures Predecessors(Diamond(a, b, c, d), b) == [a]
    ensures Predecessors(Diamond(a, b, c, d), c) == [a]
    ensures Predecessors(Diamond(a, b, c, d), d) == [b, c]
  {
    var p := Diamond(a, b, c, d);
    PredecessorsOfFour(p, a);
    PredecessorsOfFour(p, b);
    PredecessorsOfFour(p, c);
    PredecessorsOfFour(p, d);
  }

  lemma DiamondReadiness<T(!new)>(a: T, b: T, c: T, d: T)
    requires Distinct4(a, b, c, d)
    ensures ReadyBy(Diamond(a, b, c, d), 1, a)
    ensures !ReadyBy(Diamond(a, b, c, d), 1, b) && !ReadyBy(Diamond(a, b, c, d), 1, c) && !ReadyBy(Diamond(a, b, c, d), 1, d)
    ensures ReadyBy(Diamond(a, b, c, d), 2, b) && ReadyBy(Diamond(a, b, c, d), 2, c) && !ReadyBy(Diamond(a, b, c, d), 2, d)
    ensures ReadyBy(Diamond(a, b, c, d), 3, a) && ReadyBy(Diamond(a, b, c, d), 3, b)
    ensures ReadyBy(Diamond(a, b, c, d), 3, c) && ReadyBy(Diamond(a, b, c, d), 3, d)
  {
    var p := Diamond(a, b, c, d);
    DiamondPredecessors(a, b, c, d);
    assert !ReadyBy(p, 0, a) && !ReadyBy(p, 0, b);
    assert ReadyBy(p, 1, a) && ReadyBy(p, 2, a);
    assert a in Predecessors(p, b) && !ReadyBy(p, 1, b);
    assert a in Predecessors(p, c) && !ReadyBy(p, 1, c);
    assert ReadyBy(p, 2, b) && ReadyBy(p, 2, c);
    assert b in Predecessors(p, d) && !ReadyBy(p, 1, d) && !ReadyBy(p, 2, d);
  }

  lemma DiamondBatches<T(!new)>(a: T, b: T, c: T, d: T)
    requires Distinct4(a, b, c, d)
    ensures Batch(Diamond(a, b, c, d), [a, b, c, d], 0) == [a]
    ensures Batch(Diamond(a, b, c, d), [a, b, c, d], 1) == [b, c]
    ensures Batch(Diamond(a, b, c, d), [a, b, c, d], 2) == [d]
  {
    DiamondReadiness(a, b, c, d);
    BatchOfFour(Diamond(a, b, c, d), [a, b, c, d], 0);
    BatchOfFour(Diamond(a, b, c, d), [a, b, c, d], 1);
    BatchOfFour(Diamond(a, b, c, d), [a, b, c, d], 2);
  }

  lemma DiamondSettled<T(!new)>(a: T, b: T, c: T, d: T)
    requires Distinct4(a, b, c, d)
    ensures forall i :: 0 <= i < 4 ==> ReadyBy(Diamond(a, b, c, d), 3, [a, b, c, d][i])
  {
    DiamondReadiness(a, b, c, d);
  }

  /** In a diamond, b and c are emitted in the same sweep, in the order they
      first appear. */
  lemma DiamondSchedule<T(!new)>(a: T, b: T, c: T, d: T)
    requires Distinct4(a, b, c, d)
    ensures !Cyclic(Diamond(a, b, c, d)) && Schedule(Diamond(a, b, c, d)) == [a, b, c, d]
  {
    assert [a] + [b, c] + [d] == [a, b, c, d];
    DiamondKeys(a, b, c, d);
    DiamondSettled(a, b, c, d);
    DiamondBatches(a, b, c, d);
    ThreeSweeps(Diamond(a, b, c, d), [a, b, c, d], [a], [b, c], [d]);
  }

  method SortDiamond<T(==,!new)>(a: T, b: T, c: T, d: T) returns (r: Outcome<T>)
    requires Distinct4(a, b, c, d)
    ensures r == Sorted([a, b, c, d])
  {
    r := SortTasks(Diamond(a, b, c, d));
    DiamondSchedule(a, b, c, d);
  }

  // ----- a -> b, given twice -----

  lemma RepeatedKeys<T(!new)>(a: T, b: T)
    requires a != b
    ensures Keys(Repeated(a, b)) == [a, b]
  {
    var p := Repeated(a, b);
    assert p[..1][..0] == [];
    assert Keys(p[..1]) == [a, b];
  }

  lemma RepeatedReadiness<T(!new)>(a: T, b: T)
    requires a != b
    ensures ReadyBy(Repeated(a, b), 1, a) && !ReadyBy(Repeated(a, b), 1, b)
    ensures ReadyBy(Repeated(a, b), 2, a) && ReadyBy(Repeated(a, b), 2, b)
  {
    var p := Repeated(a, b);
    PredecessorsOfTwo(p, a);
    PredecessorsOfTwo(p, b);
    assert Predecessors(p, a) == [];
    assert Predecessors(p, b) == [a, a];
    assert !ReadyBy(p, 0, a) && ReadyBy(p, 1, a);
    assert a in Predecessors(p, b) && !ReadyBy(p, 1, b);
  }

  /** A pair given twice lists its dependent twice and counts it twice; the
      dependent is lowered twice once its predecessor is emitted, so a
      repeated pair is not a cycle. */
  lemma RepeatedSchedule<T(!new)>(a: T, b: T)
    requires a != b
    ensures !Cyclic(Repeated(a, b)) && Schedule(Repeated(a, b)) == [a, b]
  {
    var p := Repeated(a, b);
    RepeatedKeys(a, b);
    RepeatedReadiness(a, b);
    var ks := [a, b];
    BatchOfTwo(p, ks, 0);
    BatchOfTwo(p, ks, 1);
    assert Rounds(p, ks, 1) == [a];
    assert Rounds(p, ks, 2) == [a, b];
    AllReady(p, 2);
  }

  method SortRepeated<T(==,!new)>(a: T, b: T) returns (r: Outcome<T>)
    requires a != b
    ensures r == Sorted([a, b])
  {
    r := SortTasks(Repeated(a, b));
    RepeatedSchedule(a, b);
  }

  // ----- no pairs, and cycles -----

  method SortEmpty<T(==,!new)>() returns (r: Outcome<T>)
    ensures r == Sorted([])
  {
    r := SortTasks([]);
    AllReady<T>([], 0);
  }

  /** a before b and b before a. */
  method SortTwoCycle<T(==,!new)>(a: T, b: T) returns (r: Outcome<T>)
    ensures r == Catch22
  {
    r := SortTasks(TwoCycle(a, b));
    assert Successor([a, b], 0) == b && Successor([a, b], 1) == a;
    CycleIsCyclic(TwoCycle(a, b), [a, b]);
  }

  /** A task that must come before itself. */
  method SortSelfLoop<T(==,!new)>(x: T) returns (r: Outcome<T>)
    ensures r == Catch22
  {
    r := SortTasks(SelfLoop(x));
    assert Successor([x], 0) == x;
    CycleIsCyclic(SelfLoop(x), [x]);
  }
}
