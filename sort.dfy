/** The sorter (sort_tasks in sort.py): repeated sweeps over the graph's keys.
    A sweep emits, in key order, every task whose count has reached 0 and
    retires it; afterwards each dependent of a task emitted in that sweep has
    its count lowered once per listing. The sweeps stop when no task is left
    with a positive count, or fail with Catch22 when such tasks remain but the
    sweep emitted nothing that lowers a count. */
module TopoSort {
  import opened Seqs
  import opened TaskGraph

  /** What sort_tasks produces: every task in emission order, or Catch22. */
  datatype Outcome<T> = Sorted(order: seq<T>) | Catch22

  /** t is emitted within the first k sweeps: k > 0 and every predecessor of
      t (one per pair whose dependent is t) is emitted within the first k - 1. */
  ghost predicate ReadyBy<T(!new)>(pairs: seq<Pair<T>>, k: nat, t: T)
    decreases k
  {
    k > 0 && forall x :: x in Predecessors(pairs, t) ==> ReadyBy(pairs, k - 1, x)
  }

  /** The tasks of ks emitted in sweep k (counting from 0), in the order of ks. */
  ghost function Batch<T(!new)>(pairs: seq<Pair<T>>, ks: seq<T>, k: nat): (b: seq<T>)
    ensures forall x :: x in b ==> x in ks
  {
    if ks == [] then []
    else
      var t := ks[|ks| - 1];
      Batch(pairs, ks[..|ks| - 1], k) + if EmittedIn(pairs, k, t) then [t] else []
  }

  /** t is emitted in sweep k: ready within k + 1 sweeps but not within k. */
  ghost predicate EmittedIn<T(!new)>(pairs: seq<Pair<T>>, k: nat, t: T) {
    ReadyBy(pairs, k + 1, t) && !ReadyBy(pairs, k, t)
  }

  /** The output of the first n sweeps over the keys ks. */
  ghost function Rounds<T(!new)>(pairs: seq<Pair<T>>, ks: seq<T>, n: nat): seq<T> {
    if n == 0 then [] else Rounds(pairs, ks, n - 1) + Batch(pairs, ks, n - 1)
  }

  /** The reference order: as many sweeps as there are tasks. */
  ghost function Schedule<T(!new)>(pairs: seq<Pair<T>>): seq<T> {
    Rounds(pairs, Keys(pairs), |Keys(pairs)|)
  }

  /** The dependents of the tasks of b, concatenated in the order of b
      (the list tasks_to_process a sweep builds). */
  function Collect<T(==,!new)>(pairs: seq<Pair<T>>, b: seq<T>): seq<T> {
    if b == [] then [] else Collect(pairs, b[..|b| - 1]) + Dependents(pairs, b[|b| - 1])
  }

  /** order lists every mentioned task exactly once and puts the predecessor
      of every pair before its dependent. */
  ghost predicate IsTopologicalOrder<T(!new)>(pairs: seq<Pair<T>>, order: seq<T>) {
    && NoDup(order)
    && (forall x :: x in order <==> Mentions(pairs, x))
    && (forall k, i, j ::
          0 <= k < |pairs| && 0 <= i < |order| && 0 <= j < |order| && order[i] == pairs[k].pred && order[j] == pairs[k].dep
          ==> i < j)
  }

  /** A nonempty set of tasks each of which has a predecessor inside the set:
      none of them can ever come first. */
  ghost predicate Entangled<T(!new)>(pairs: seq<Pair<T>>, s: set<T>) {
    s != {} && forall t {:trigger HasPredecessorIn(pairs, t, s)} :: t in s ==> HasPredecessorIn(pairs, t, s)
  }

  /** Some pair has dependent t and its predecessor in s. */
  ghost predicate HasPredecessorIn<T(!new)>(pairs: seq<Pair<T>>, t: T, s: set<T>) {
    exists i :: 0 <= i < |pairs| && pairs[i].dep == t && pairs[i].pred in s
  }

  /** The pairs admit no order: some set of tasks is entangled. */
  ghost predicate Cyclic<T(!new)>(pairs: seq<Pair<T>>) {
    exists s :: Entangled(pairs, s)
  }

  /** c is a closed walk along the pairs: each task precedes the next, the last precedes the first. */
  ghost predicate IsCycle<T(!new)>(pairs: seq<Pair<T>>, c: seq<T>) {
    |c| > 0 && forall i :: 0 <= i < |c| ==> Pair(c[i], Successor(c, i)) in pairs
  }

  /** The task after position i on the closed walk c. */
  function Successor<T>(c: seq<T>, i: nat): T
    requires i < |c|
  {
    if i + 1 < |c| then c[i + 1] else c[0]
  }

  // ----- Readiness -----

  /** A task emitted within a sweeps is emitted within any b >= a sweeps. */
  lemma {:induction false} ReadyByMonotone<T(!new)>(pairs: seq<Pair<T>>, a: nat, b: nat, t: T)
    requires a <= b && ReadyBy(pairs, a, t)
    ensures ReadyBy(pairs, b, t)
    decreases a
  {
    forall x | x in Predecessors(pairs, t)
      ensures ReadyBy(pairs, b - 1, x)
    {
      ReadyByMonotone(pairs, a - 1, b - 1, x);
    }
  }

  /** If s holds exactly the keys emitted within k sweeps, then all of t's
      predecessors lie in s exactly when t is emitted within k + 1 sweeps. */
  lemma ReadyStep<T(!new)>(pairs: seq<Pair<T>>, k: nat, t: T, s: set<T>)
    requires forall x :: x in Keys(pairs) ==> (x in s <==> ReadyBy(pairs, k, x))
    ensures PredsIn(pairs, t, s) == InDegree(pairs, t) <==> ReadyBy(pairs, k + 1, t)
  {
    PredsInAll(pairs, t, s);
    if PredsIn(pairs, t, s) == InDegree(pairs, t) {
      forall x | x in Predecessors(pairs, t)
        ensures ReadyBy(pairs, k, x)
      {
        var i := PredecessorPair(pairs, t, x);
        PairInKeys(pairs, i);
      }
    }
    if ReadyBy(pairs, k + 1, t) {
      forall i | 0 <= i < |pairs| && pairs[i].dep == t
        ensures pairs[i].pred in s
      {
        PredecessorOf(pairs, i);
        PairInKeys(pairs, i);
      }
    }
  }

  /** No task of an entangled set is ever emitted. */
  lemma {:induction false} EntangledNeverReady<T(!new)>(pairs: seq<Pair<T>>, s: set<T>, k: nat, t: T)
    requires Entangled(pairs, s) && t in s
    ensures !ReadyBy(pairs, k, t)
  {
    if k > 0 {
      assert HasPredecessorIn(pairs, t, s);
      var i :| 0 <= i < |pairs| && pairs[i].dep == t && pairs[i].pred in s;
      PredecessorOf(pairs, i);
      EntangledNeverReady(pairs, s, k - 1, pairs[i].pred);
    }
  }

  // ----- Sweeps -----

  /** Sweep k emits exactly the tasks of ks that become ready in it. */
  lemma {:induction false} BatchMembers<T(!new)>(pairs: seq<Pair<T>>, ks: seq<T>, k: nat, x: T)
    ensures x in Batch(pairs, ks, k) <==> x in ks && ReadyBy(pairs, k + 1, x) && !ReadyBy(pairs, k, x)
  {
    if ks != [] {
      var p := ks[..|ks| - 1];
      assert ks == p + [ks[|ks| - 1]];
      BatchMembers(pairs, p, k, x);
    }
  }

  /** A sweep emits the tasks it emits in the order of the keys. */
  lemma {:induction false} BatchInKeyOrder<T(!new)>(pairs: seq<Pair<T>>, ks: seq<T>, k: nat, i: nat, j: nat)
    requires NoDup(ks)
    requires i < j < |Batch(pairs, ks, k)|
    ensures FirstIndex(ks, Batch(pairs, ks, k)[i]) < FirstIndex(ks, Batch(pairs, ks, k)[j])
  {
    var n := |ks|;
    var p := ks[..n - 1];
    var b := Batch(pairs, ks, k);
    var bp := Batch(pairs, p, k);
    BatchMembers(pairs, p, k, b[i]);
    FirstIndexOfPrefix(ks, n - 1, b[i]);
    if j < |bp| {
      BatchInKeyOrder(pairs, p, k, i, j);
      BatchMembers(pairs, p, k, b[j]);
      FirstIndexOfPrefix(ks, n - 1, b[j]);
    } else {
      assert b[j] == ks[n - 1] && ks[n - 1] !in p;
      FirstIndexUnique(ks, ks[n - 1], n - 1);
    }
  }

  /** A sweep emits no task twice. */
  lemma {:induction false} BatchNoDup<T(!new)>(pairs: seq<Pair<T>>, ks: seq<T>, k: nat)
    requires NoDup(ks)
    ensures NoDup(Batch(pairs, ks, k))
  {
    if ks != [] {
      var p := ks[..|ks| - 1];
      BatchNoDup(pairs, p, k);
      BatchMembers(pairs, p, k, ks[|ks| - 1]);
    }
  }

  /** Once every key is ready, a sweep emits nothing. */
  lemma BatchEmpty<T(!new)>(pairs: seq<Pair<T>>, ks: seq<T>, k: nat)
    requires forall x :: x in ks ==> ReadyBy(pairs, k, x)
    ensures Batch(pairs, ks, k) == []
  {
    var b := Batch(pairs, ks, k);
    if b != [] {
      BatchMembers(pairs, ks, k, b[0]);
    }
  }

  /** The first n sweeps emit exactly the keys ready within n sweeps. */
  lemma {:induction false} RoundsMembers<T(!new)>(pairs: seq<Pair<T>>, ks: seq<T>, n: nat, x: T)
    ensures x in Rounds(pairs, ks, n) <==> x in ks && ReadyBy(pairs, n, x)
  {
    if n > 0 {
      RoundsMembers(pairs, ks, n - 1, x);
      BatchMembers(pairs, ks, n - 1, x);
      if ReadyBy(pairs, n - 1, x) {
        ReadyByMonotone(pairs, n - 1, n, x);
      }
    }
  }

  /** A sweep emits nothing the earlier sweeps emitted. */
  lemma RoundsBatchDisjoint<T(!new)>(pairs: seq<Pair<T>>, ks: seq<T>, n: nat)
    ensures forall x :: x in Rounds(pairs, ks, n) ==> x !in Batch(pairs, ks, n)
  {
    forall x | x in Rounds(pairs, ks, n)
      ensures x !in Batch(pairs, ks, n)
    {
      RoundsMembers(pairs, ks, n, x);
      BatchMembers(pairs, ks, n, x);
    }
  }

  /** No task is emitted twice. */
  lemma {:induction false} RoundsNoDup<T(!new)>(pairs: seq<Pair<T>>, ks: seq<T>, n: nat)
    requires NoDup(ks)
    ensures NoDup(Rounds(pairs, ks, n))
  {
    if n > 0 {
      var r := Rounds(pairs, ks, n - 1);
      var b := Batch(pairs, ks, n - 1);
      RoundsBatchDisjoint(pairs, ks, n - 1);
      RoundsNoDup(pairs, ks, n - 1);
      BatchNoDup(pairs, ks, n - 1);
      NoDupConcat(r, b);
    }
  }

  /** Every pair's predecessor is emitted before its dependent. */
  lemma {:induction false} RoundsRespect<T(!new)>(pairs: seq<Pair<T>>, ks: seq<T>, n: nat, k: nat, i: nat, j: nat)
    requires k < |pairs| && i < |Rounds(pairs, ks, n)| && j < |Rounds(pairs, ks, n)|
    requires Rounds(pairs, ks, n)[i] == pairs[k].pred && Rounds(pairs, ks, n)[j] == pairs[k].dep
    ensures i < j
  {
    var r := Rounds(pairs, ks, n);
    var p := Rounds(pairs, ks, n - 1);
    var b := Batch(pairs, ks, n - 1);
    var pred, dep := pairs[k].pred, pairs[k].dep;
    assert r == p + b;
    PredecessorOf(pairs, k);
    if i >= |p| {
      assert pred in b;
      BatchMembers(pairs, ks, n - 1, pred);
      if j < |p| {
        assert dep in p;
        RoundsMembers(pairs, ks, n - 1, dep);
        assert ReadyBy(pairs, n - 2, pred);
        ReadyByMonotone(pairs, n - 2, n - 1, pred);
      } else {
        assert dep in b;
        BatchMembers(pairs, ks, n - 1, dep);
      }
    } else if j < |p| {
      RoundsRespect(pairs, ks, n - 1, k, i, j);
    }
  }

  /** Once every key is ready, further sweeps add nothing. */
  lemma {:induction false} RoundsStable<T(!new)>(pairs: seq<Pair<T>>, ks: seq<T>, a: nat, b: nat)
    requires a <= b
    requires forall x :: x in ks ==> ReadyBy(pairs, a, x)
    ensures Rounds(pairs, ks, b) == Rounds(pairs, ks, a)
    decreases b
  {
    if a < b {
      RoundsStable(pairs, ks, a, b - 1);
      forall x | x in ks
        ensures ReadyBy(pairs, b - 1, x)
      {
        ReadyByMonotone(pairs, a, b - 1, x);
      }
      BatchEmpty(pairs, ks, b - 1);
    }
  }

  /** The keys emitted within k sweeps. */
  ghost function ReadySet<T(!new)>(pairs: seq<Pair<T>>, k: nat): set<T> {
    set x | x in Keys(pairs) && ReadyBy(pairs, k, x)
  }

  /** A sweep that emits nothing new while keys remain leaves those keys entangled. */
  lemma StuckIsCyclic<T(!new)>(pairs: seq<Pair<T>>, k: nat)
    requires k > 0
    ensures ReadySet(pairs, k) == ReadySet(pairs, k - 1) != (set x | x in Keys(pairs)) ==> Cyclic(pairs)
  {
    if ReadySet(pairs, k) == ReadySet(pairs, k - 1) != set x | x in Keys(pairs) {
      StuckSetEntangled(pairs, k);
    }
  }

  /** The keys left after a sweep that emitted nothing new form an entangled set. */
  lemma StuckSetEntangled<T(!new)>(pairs: seq<Pair<T>>, k: nat)
    requires k > 0
    requires ReadySet(pairs, k) == ReadySet(pairs, k - 1) != set x | x in Keys(pairs)
    ensures Entangled(pairs, (set x | x in Keys(pairs)) - ReadySet(pairs, k - 1))
  {
    var rest := (set x | x in Keys(pairs)) - ReadySet(pairs, k - 1);
    var z :| z in Keys(pairs) && z !in ReadySet(pairs, k - 1);
    assert z in rest;
    forall t | t in rest
      ensures HasPredecessorIn(pairs, t, rest)
    {
      assert !ReadyBy(pairs, k, t);
      var x :| x in Predecessors(pairs, t) && !ReadyBy(pairs, k - 1, x);
      var i := PredecessorPair(pairs, t, x);
      PairInKeys(pairs, i);
    }
  }

  /** A set that strictly grows gains at least one member. */
  lemma StrictSuperset<T>(small: set<T>, big: set<T>, y: T)
    requires small <= big && y in big && y !in small
    ensures |big| >= |small| + 1
  {
    assert big == small + (big - small);
    assert y in big - small;
  }

  /** A task once emitted stays emitted. */
  lemma ReadySetMonotone<T(!new)>(pairs: seq<Pair<T>>, k: nat)
    ensures ReadySet(pairs, k) <= ReadySet(pairs, k + 1)
  {
    forall x | x in ReadySet(pairs, k)
      ensures x in ReadySet(pairs, k + 1)
    {
      ReadyByMonotone(pairs, k, k + 1, x);
    }
  }

  /** Without an entangled set, each sweep emits something new until every key is out. */
  lemma {:induction false} ReadySetGrows<T(!new)>(pairs: seq<Pair<T>>, k: nat)
    requires !Cyclic(pairs)
    ensures |ReadySet(pairs, k)| >= k || ReadySet(pairs, k) == set x | x in Keys(pairs)
  {
    if k > 0 {
      ReadySetGrows(pairs, k - 1);
      var all := set x | x in Keys(pairs);
      var before, after := ReadySet(pairs, k - 1), ReadySet(pairs, k);
      ReadySetMonotone(pairs, k - 1);
      if before != all && after != all {
        StuckIsCyclic(pairs, k);
        assert after != before;
        var y :| y in after && y !in before;
        StrictSuperset(before, after, y);
      }
    }
  }

  /** Without an entangled set, every key is emitted within as many sweeps as there are keys. */
  lemma AcyclicSettles<T(!new)>(pairs: seq<Pair<T>>)
    requires !Cyclic(pairs)
    ensures forall x :: x in Keys(pairs) ==> ReadyBy(pairs, |Keys(pairs)|, x)
  {
    var n := |Keys(pairs)|;
    ReadySetGrows(pairs, n);
    forall x | x in Keys(pairs)
      ensures ReadyBy(pairs, n, x)
    {
      if !ReadyBy(pairs, n, x) {
        var r := ReadySet(pairs, n);
        assert x !in r && x in set y | y in Keys(pairs);
        CardinalityBound(r, Keys(pairs), x);
      }
    }
  }

  /** In a topological order, no task of an entangled set can sit among the first n. */
  lemma {:induction false} NoEntangledPrefix<T(!new)>(pairs: seq<Pair<T>>, order: seq<T>, s: set<T>, n: nat)
    requires IsTopologicalOrder(pairs, order) && Entangled(pairs, s) && n <= |order|
    ensures forall i :: 0 <= i < n ==> order[i] !in s
  {
    if n > 0 {
      NoEntangledPrefix(pairs, order, s, n - 1);
      var t := order[n - 1];
      if t in s {
        assert HasPredecessorIn(pairs, t, s);
        var k :| 0 <= k < |pairs| && pairs[k].dep == t && pairs[k].pred in s;
        assert Mentions(pairs, pairs[k].pred);
      }
    }
  }

  /** A topological order rules out an entangled set. */
  lemma TopologicalOrderExcludesCycle<T(!new)>(pairs: seq<Pair<T>>, order: seq<T>)
    requires IsTopologicalOrder(pairs, order)
    ensures !Cyclic(pairs)
  {
    if Cyclic(pairs) {
      var s :| Entangled(pairs, s);
      NoEntangledPrefix(pairs, order, s, |order|);
      var t :| t in s;
      assert HasPredecessorIn(pairs, t, s);
      assert Mentions(pairs, t);
    }
  }

  /** The reference order is a topological order exactly when no set of tasks is entangled. */
  lemma ScheduleCorrect<T(!new)>(pairs: seq<Pair<T>>)
    ensures IsTopologicalOrder(pairs, Schedule(pairs)) <==> !Cyclic(pairs)
  {
    var ks := Keys(pairs);
    var r := Schedule(pairs);
    if !Cyclic(pairs) {
      AcyclicSettles(pairs);
      KeysNoDup(pairs);
      RoundsNoDup(pairs, ks, |ks|);
      forall x
        ensures x in r <==> Mentions(pairs, x)
      {
        RoundsMembers(pairs, ks, |ks|, x);
        KeysMentions(pairs, x);
      }
      forall k, i, j | 0 <= k < |pairs| && 0 <= i < |r| && 0 <= j < |r| && r[i] == pairs[k].pred && r[j] == pairs[k].dep
        ensures i < j
      {
        RoundsRespect(pairs, ks, |ks|, k, i, j);
      }
    } else if IsTopologicalOrder(pairs, r) {
      TopologicalOrderExcludesCycle(pairs, r);
    }
  }

  /** Some order respects the pairs exactly when they are not cyclic. */
  lemma CyclicIffNoOrder<T(!new)>(pairs: seq<Pair<T>>)
    ensures Cyclic(pairs) <==> !exists o :: IsTopologicalOrder(pairs, o)
  {
    ScheduleCorrect(pairs);
    if o :| IsTopologicalOrder(pairs, o) {
      TopologicalOrderExcludesCycle(pairs, o);
    }
  }

  /** A pair's dependent is emitted in a strictly later sweep than its
      predecessor: ready within k + 1 sweeps needs the predecessor ready within k. */
  lemma PairPrecedence<T(!new)>(pairs: seq<Pair<T>>, k: nat, i: nat)
    requires i < |pairs| && ReadyBy(pairs, k + 1, pairs[i].dep)
    ensures ReadyBy(pairs, k, pairs[i].pred)
  {
    PredecessorOf(pairs, i);
  }

  /** A closed walk along the pairs makes its tasks an entangled set. */
  lemma CycleIsCyclic<T(!new)>(pairs: seq<Pair<T>>, c: seq<T>)
    requires IsCycle(pairs, c)
    ensures Cyclic(pairs)
  {
    var s := set x | x in c;
    forall t | t in s
      ensures HasPredecessorIn(pairs, t, s)
    {
      var j :| 0 <= j < |c| && c[j] == t;
      var i := if j == 0 then |c| - 1 else j - 1;
      assert Successor(c, i) == t;
      var k :| 0 <= k < |pairs| && pairs[k] == Pair(c[i], t);
    }
    assert c[0] in s;
    assert Entangled(pairs, s);
  }

  // ----- The list of tasks to lower -----

  /** The tasks of a sequence. */
  ghost function Elements<T>(s: seq<T>): set<T> {
    set x | x in s
  }

  /** The tasks of a nonempty sequence are those of its front and its last one, which the front lacks when no task repeats. */
  lemma ElementsSnoc<T>(b: seq<T>)
    requires b != []
    ensures Elements(b) == Elements(b[..|b| - 1]) + {b[|b| - 1]}
    ensures NoDup(b) ==> Elements(b[..|b| - 1]) * {b[|b| - 1]} == {}
  {
    assert b == b[..|b| - 1] + [b[|b| - 1]];
  }

  /** Each task occurs in the collected dependents once per pair leading into it from b. */
  lemma {:induction false} CollectCount<T(!new)>(pairs: seq<Pair<T>>, b: seq<T>, t: T)
    requires NoDup(b)
    ensures multiset(Collect(pairs, b))[t] == PredsIn(pairs, t, Elements(b))
  {
    if b == [] {
      assert Elements(b) == {};
      PredsInEmpty(pairs, t);
    } else {
      var p, r := b[..|b| - 1], b[|b| - 1];
      assert NoDup(p);
      CollectCount(pairs, p, t);
      DependentsCount(pairs, r, t);
      PredsInSingleton(pairs, t, r);
      assert multiset(Collect(pairs, b)) == multiset(Collect(pairs, p)) + multiset(Dependents(pairs, r));
      ElementsSnoc(b);
      PredsInUnion(pairs, t, Elements(p), {r});
    }
  }

  /** The collected dependents are the tasks with a pair leading into them from b. */
  lemma {:induction false} CollectMembers<T(!new)>(pairs: seq<Pair<T>>, b: seq<T>, t: T)
    ensures t in Collect(pairs, b) <==> exists k :: 0 <= k < |pairs| && pairs[k].dep == t && pairs[k].pred in b
  {
    if b != [] {
      var p, r := b[..|b| - 1], b[|b| - 1];
      assert b == p + [r];
      CollectMembers(pairs, p, t);
      DependentsMembers(pairs, r, t);
      if Pair(r, t) in pairs {
        var k :| 0 <= k < |pairs| && pairs[k] == Pair(r, t);
        assert pairs[k].pred in b;
      }
      if exists k :: 0 <= k < |pairs| && pairs[k].dep == t && pairs[k].pred in b {
        var k :| 0 <= k < |pairs| && pairs[k].dep == t && pairs[k].pred in b;
        if pairs[k].pred !in p {
          assert pairs[k] == Pair(r, t);
        }
      }
    }
  }

  /** The dependent of a pair whose predecessor is in b is collected. */
  lemma CollectedFrom<T(!new)>(pairs: seq<Pair<T>>, b: seq<T>, i: nat)
    requires i < |pairs|
    ensures pairs[i].pred in b ==> pairs[i].dep in Collect(pairs, b)
  {
    CollectMembers(pairs, b, pairs[i].dep);
  }

  // ----- The sorter -----

  /** The graph during the sweeps, after k of them: keys and dependents as
      built, a task retired (count None) exactly when it was emitted within k
      sweeps, and every other count equal to the pairs leading into the task
      from tasks not yet retired. */
  ghost predicate RoundState<T(!new)>(pairs: seq<Pair<T>>, keys: seq<T>, nodes: map<T, Node<T>>, retired: set<T>, k: nat) {
    && keys == Keys(pairs)
    && (forall t :: t in nodes <==> t in keys)
    && (forall t :: t in nodes ==> nodes[t].dependents == Dependents(pairs, t))
    && retired == ReadySet(pairs, k)
    && (forall t :: t in nodes ==> (nodes[t].count.None? <==> t in retired))
    && (forall t :: t in nodes && nodes[t].count.Some? ==> nodes[t].count.value + PredsIn(pairs, t, retired) == InDegree(pairs, t))
  }

  /** The graph after k sweeps. */
  ghost predicate StateAfter<T(!new)>(pairs: seq<Pair<T>>, keys: seq<T>, nodes: map<T, Node<T>>, k: nat) {
    RoundState(pairs, keys, nodes, ReadySet(pairs, k), k)
  }

  /** A node as the sweep leaves it: retired if its count was 0. */
  function Swept<T>(n: Node<T>): Node<T> {
    if n.count == Some(0) then n.(count := None) else n
  }

  /** A node whose count is still positive. */
  predicate Blocked<T>(n: Node<T>) {
    n.count.Some? && n.count.value > 0
  }

  /** The freshly built graph is the state before any sweep. */
  lemma InitialRoundState<T(!new)>(pairs: seq<Pair<T>>, keys: seq<T>, nodes: map<T, Node<T>>)
    requires keys == Keys(pairs)
    requires forall t :: t in nodes <==> t in keys
    requires forall t :: t in nodes ==> nodes[t] == Node(Some(InDegree(pairs, t)), Dependents(pairs, t))
    ensures StateAfter(pairs, keys, nodes, 0)
  {
    assert ReadySet(pairs, 0) == {};
    forall t | t in nodes
      ensures PredsIn(pairs, t, {}) == 0
    {
      PredsInEmpty(pairs, t);
    }
  }

  /** In sweep k a key is skipped exactly when it was emitted earlier, and
      emitted exactly when its count is 0. */
  lemma SweepDecision<T(!new)>(pairs: seq<Pair<T>>, keys: seq<T>, nodes: map<T, Node<T>>, retired: set<T>, k: nat, t: T)
    requires RoundState(pairs, keys, nodes, retired, k) && t in keys
    ensures nodes[t].count.None? <==> ReadyBy(pairs, k, t)
    ensures nodes[t].count == Some(0) <==> ReadyBy(pairs, k + 1, t) && !ReadyBy(pairs, k, t)
    ensures Blocked(nodes[t]) <==> !ReadyBy(pairs, k + 1, t)
  {
    ReadyStep(pairs, k, t, retired);
    if ReadyBy(pairs, k, t) {
      ReadyByMonotone(pairs, k, k + 1, t);
    }
  }

  /** A task with a positive count that the sweep did not reach through a
      collected dependent has a predecessor whose count is positive too. */
  lemma BlockedPredecessor<T(!new)>(pairs: seq<Pair<T>>, keys: seq<T>, nodes: map<T, Node<T>>, retired: set<T>, k: nat, t: T)
    returns (i: nat)
    requires RoundState(pairs, keys, nodes, retired, k)
    requires t !in Collect(pairs, Batch(pairs, keys, k))
    requires t in keys && Blocked(nodes[t])
    ensures i < |pairs| && pairs[i].dep == t && pairs[i].pred in keys && Blocked(nodes[pairs[i].pred])
  {
    i := MissingPredecessor(pairs, t, retired);
    PairInKeys(pairs, i);
    CollectedFrom(pairs, Batch(pairs, keys, k), i);
    assert pairs[i].pred !in Batch(pairs, keys, k);
    BlockedUnlessEmitted(pairs, keys, nodes, retired, k, pairs[i].pred);
  }

  /** In sweep k a key not yet retired keeps a positive count exactly when the sweep does not emit it. */
  lemma BlockedUnlessEmitted<T(!new)>(pairs: seq<Pair<T>>, keys: seq<T>, nodes: map<T, Node<T>>, retired: set<T>, k: nat, p: T)
    requires RoundState(pairs, keys, nodes, retired, k) && p in keys && p !in retired
    ensures Blocked(nodes[p]) <==> p !in Batch(pairs, keys, k)
  {
    SweepDecision(pairs, keys, nodes, retired, k, p);
    BatchMembers(pairs, keys, k, p);
  }

  /** Catch22: tasks with positive counts remain but the sweep collected no
      dependents, so those tasks form an entangled set. */
  lemma BlockedIsCyclic<T(!new)>(pairs: seq<Pair<T>>, keys: seq<T>, nodes: map<T, Node<T>>, retired: set<T>, k: nat, w: T)
    requires RoundState(pairs, keys, nodes, retired, k)
    requires Collect(pairs, Batch(pairs, keys, k)) == []
    requires w in keys && Blocked(nodes[w])
    ensures Cyclic(pairs)
  {
    var s := set x | x in keys && Blocked(nodes[x]);
    assert w in s;
    forall t | t in s
      ensures HasPredecessorIn(pairs, t, s)
    {
      var i := BlockedPredecessor(pairs, keys, nodes, retired, k, t);
      assert pairs[i].pred in s;
    }
    assert Entangled(pairs, s);
  }

  /** After sweep k the retired tasks are the keys ready within k + 1 sweeps. */
  lemma RetiredAfterSweep<T(!new)>(pairs: seq<Pair<T>>, k: nat, t: T)
    ensures t in ReadySet(pairs, k) + Elements(Batch(pairs, Keys(pairs), k)) <==> t in ReadySet(pairs, k + 1)
  {
    BatchMembers(pairs, Keys(pairs), k, t);
    if t in ReadySet(pairs, k) {
      ReadyByMonotone(pairs, k, k + 1, t);
    }
  }

  /** Every collected dependent is a key that sweep k did not retire. */
  lemma CollectedUnretired<T(!new)>(pairs: seq<Pair<T>>, k: nat, t: T)
    requires t in Collect(pairs, Batch(pairs, Keys(pairs), k))
    ensures t in Keys(pairs) && t !in ReadySet(pairs, k + 1)
  {
    var b := Batch(pairs, Keys(pairs), k);
    CollectMembers(pairs, b, t);
    var i :| 0 <= i < |pairs| && pairs[i].dep == t && pairs[i].pred in b;
    PairInKeys(pairs, i);
    PredecessorOf(pairs, i);
    BatchMembers(pairs, Keys(pairs), k, pairs[i].pred);
  }

  /** The count of a swept task exceeds its target after sweep k by its
      occurrences among the collected dependents. */
  lemma SweptCount<T(!new)>(pairs: seq<Pair<T>>, keys: seq<T>, before: map<T, Node<T>>, retired: set<T>, k: nat, t: T)
    requires RoundState(pairs, keys, before, retired, k)
    requires t in keys && Swept(before[t]).count.Some?
    ensures var b := Batch(pairs, keys, k);
      Swept(before[t]).count.value + PredsIn(pairs, t, retired + Elements(b)) == InDegree(pairs, t) + multiset(Collect(pairs, b))[t]
  {
    var b := Batch(pairs, keys, k);
    KeysNoDup(pairs);
    BatchNoDup(pairs, keys, k);
    SweepDecision(pairs, keys, before, retired, k, t);
    CollectCount(pairs, b, t);
    assert retired * Elements(b) == {} by {
      forall x | x in b
        ensures x !in retired
      {
        BatchMembers(pairs, keys, k, x);
      }
    }
    PredsInUnion(pairs, t, retired, Elements(b));
  }

  /** A swept task is retired exactly when it is ready within k + 1 sweeps. */
  lemma SweptRetired<T(!new)>(pairs: seq<Pair<T>>, keys: seq<T>, before: map<T, Node<T>>, retired: set<T>, k: nat, t: T)
    requires RoundState(pairs, keys, before, retired, k)
    requires t in keys
    ensures Swept(before[t]).count.None? <==> ReadyBy(pairs, k + 1, t)
  {
    SweepDecision(pairs, keys, before, retired, k, t);
    if ReadyBy(pairs, k, t) {
      ReadyByMonotone(pairs, k, k + 1, t);
    }
  }

  /** Once every key is out, no set is entangled and the output so far is the reference order. */
  lemma AllReady<T(!new)>(pairs: seq<Pair<T>>, k: nat)
    requires forall x :: x in Keys(pairs) ==> ReadyBy(pairs, k, x)
    ensures !Cyclic(pairs)
    ensures Rounds(pairs, Keys(pairs), k) == Schedule(pairs)
  {
    if Cyclic(pairs) {
      var s :| Entangled(pairs, s);
      var t :| t in s;
      assert HasPredecessorIn(pairs, t, s);
      KeysMentions(pairs, t);
      EntangledNeverReady(pairs, s, k, t);
    }
    var n := |Keys(pairs)|;
    AcyclicSettles(pairs);
    if k <= n {
      RoundsStable(pairs, Keys(pairs), k, n);
    } else {
      RoundsStable(pairs, Keys(pairs), n, k);
    }
  }

  /** The dependents recorded in nodes for the tasks of b, concatenated in the order of b. */
  ghost function Gather<T>(nodes: map<T, Node<T>>, b: seq<T>): seq<T>
    requires forall t :: t in b ==> t in nodes
  {
    if b == [] then [] else Gather(nodes, b[..|b| - 1]) + nodes[b[|b| - 1]].dependents
  }

  /** What a sweep over the state after k sweeps can rely on: the keys are
      distinct nodes, and a count is 0 exactly for the tasks emitted in sweep k. */
  lemma SweepReady<T(!new)>(pairs: seq<Pair<T>>, keys: seq<T>, nodes: map<T, Node<T>>, retired: set<T>, k: nat)
    requires RoundState(pairs, keys, nodes, retired, k)
    ensures NoDup(keys)
    ensures forall t :: t in keys ==> t in nodes && (nodes[t].count == Some(0) <==> t in EmittedSet(pairs, k))
  {
    KeysNoDup(pairs);
    forall t | t in keys
      ensures nodes[t].count == Some(0) <==> t in EmittedSet(pairs, k)
    {
      SweepDecision(pairs, keys, nodes, retired, k, t);
    }
  }

  /** The keys emitted in sweep k. */
  ghost function EmittedSet<T(!new)>(pairs: seq<Pair<T>>, k: nat): set<T> {
    set x | x in Keys(pairs) && EmittedIn(pairs, k, x)
  }

  /** A sweep's output as the code computes it is sweep k of the reference order,
      and the dependents it gathers are the collected ones. */
  lemma SweepMeaning<T(!new)>(pairs: seq<Pair<T>>, nodes: map<T, Node<T>>, k: nat)
    requires forall t :: t in Keys(pairs) ==> t in nodes && nodes[t].dependents == Dependents(pairs, t)
    ensures Filter(Keys(pairs), EmittedSet(pairs, k)) == Batch(pairs, Keys(pairs), k)
    ensures Gather(nodes, Batch(pairs, Keys(pairs), k)) == Collect(pairs, Batch(pairs, Keys(pairs), k))
  {
    FilterBatch(pairs, Keys(pairs), k);
    GatherCollect(pairs, nodes, Batch(pairs, Keys(pairs), k));
  }

  /** Filtering keys by the emitted set is the sweep's batch. */
  lemma {:induction false} FilterBatch<T(!new)>(pairs: seq<Pair<T>>, ks: seq<T>, k: nat)
    requires forall x :: x in ks ==> x in Keys(pairs)
    ensures Filter(ks, EmittedSet(pairs, k)) == Batch(pairs, ks, k)
  {
    if ks != [] {
      FilterBatch(pairs, ks[..|ks| - 1], k);
    }
  }

  /** Gathering from nodes that hold the built dependents is collecting. */
  lemma {:induction false} GatherCollect<T(!new)>(pairs: seq<Pair<T>>, nodes: map<T, Node<T>>, b: seq<T>)
    requires forall t :: t in b ==> t in nodes && nodes[t].dependents == Dependents(pairs, t)
    ensures Gather(nodes, b) == Collect(pairs, b)
  {
    if b != [] {
      GatherCollect(pairs, nodes, b[..|b| - 1]);
    }
  }

  /** The graph after sweeping the keys ks in order: each one met with count 0 is retired. */
  ghost function SweptThrough<T>(ks: seq<T>, nodes: map<T, Node<T>>): map<T, Node<T>> {
    if ks == [] then nodes
    else
      var m := SweptThrough(ks[..|ks| - 1], nodes);
      var t := ks[|ks| - 1];
      if t in m && m[t].count == Some(0) then m[t := m[t].(count := None)] else m
  }

  /** Sweeping ks keeps the tasks of the graph and retires exactly the keys of ks with count 0. */
  lemma {:induction false} SweptThroughAt<T>(ks: seq<T>, nodes: map<T, Node<T>>, t: T)
    ensures t in SweptThrough(ks, nodes) <==> t in nodes
    ensures t in nodes ==> SweptThrough(ks, nodes)[t] == if t in ks then Swept(nodes[t]) else nodes[t]
  {
    if ks != [] {
      var p := ks[..|ks| - 1];
      assert ks == p + [ks[|ks| - 1]];
      SweptThroughAt(p, nodes, t);
      SweptThroughAt(p, nodes, ks[|ks| - 1]);
    }
  }

  /** One sweep of sort_tasks over the keys in order: a retired task is
      skipped, a task with count 0 is emitted, retired and its dependents
      collected, and any other task marks that work remains. The ghost set
      ready names the tasks whose count is 0. */
  method Sweep<T(==)>(keys: seq<T>, nodes: map<T, Node<T>>, ghost ready: set<T>)
    returns (emitted: seq<T>, nodes': map<T, Node<T>>, tasksToProcess: seq<T>, remaining: bool)
    requires NoDup(keys)
    requires forall t :: t in keys ==> t in nodes && (nodes[t].count == Some(0) <==> t in ready)
    ensures emitted == Filter(keys, ready)
    ensures forall t :: t in emitted ==> t in nodes
    ensures tasksToProcess == Gather(nodes, emitted)
    ensures remaining <==> exists t :: t in keys && Blocked(nodes[t])
    ensures forall t :: t in nodes' <==> t in nodes
    ensures forall t :: t in nodes ==> nodes'[t] == if t in keys then Swept(nodes[t]) else nodes[t]
  {
    emitted, nodes', tasksToProcess, remaining := [], nodes, [], false;
    for i := 0 to |keys|
      invariant emitted == Filter(keys[..i], ready)
      invariant forall t :: t in emitted ==> t in nodes
      invariant tasksToProcess == Gather(nodes, emitted)
      invariant nodes' == SweptThrough(keys[..i], nodes)
      invariant remaining <==> exists m :: 0 <= m < i && Blocked(nodes[keys[m]])
    {
      var t := keys[i];
      assert keys[..i + 1] == keys[..i] + [t];
      SweptThroughAt(keys[..i], nodes, t);
      var n := nodes'[t];
      if n.count == None {
      } else if n.count == Some(0) {
        nodes' := nodes'[t := n.(count := None)];
        tasksToProcess := tasksToProcess + n.dependents;
        emitted := emitted + [t];
      } else {
        remaining := true;
      }
    }
    assert keys[..|keys|] == keys;
    forall t
      ensures t in nodes' <==> t in nodes
      ensures t in nodes ==> nodes'[t] == if t in keys then Swept(nodes[t]) else nodes[t]
    {
      SweptThroughAt(keys, nodes, t);
    }
    if remaining {
      var m :| 0 <= m < |keys| && Blocked(nodes[keys[m]]);
    }
  }

  /** A node whose count is lowered by d; a retired node is left alone. */
  function LowerBy<T>(n: Node<T>, d: nat): Node<T>
    requires n.count.Some? ==> n.count.value >= d
  {
    if n.count.None? then n else n.(count := Some(n.count.value - d))
  }

  /** A prefix of s holds no element more often than s does. */
  lemma PrefixMultiset<T>(s: seq<T>, j: nat)
    requires j <= |s|
    ensures multiset(s[..j]) <= multiset(s)
  {
    assert s == s[..j] + s[j..];
  }

  /** A node with its positive count lowered by one. */
  function Decrement<T>(n: Node<T>): Node<T>
    requires n.count.Some? && n.count.value > 0
  {
    n.(count := Some(n.count.value - 1))
  }

  /** One step of the closing loop: lowering the count of the j-th listed task
      extends the lowering by the first j tasks to the first j + 1. */
  lemma LowerStep<T>(nodes: map<T, Node<T>>, tasksToProcess: seq<T>, j: nat, cur: map<T, Node<T>>)
    requires j < |tasksToProcess|
    requires forall t :: t in tasksToProcess ==> t in nodes && nodes[t].count.Some?
    requires forall t :: t in nodes && nodes[t].count.Some? ==> nodes[t].count.value >= multiset(tasksToProcess)[t]
    requires forall t :: t in cur <==> t in nodes
    requires multiset(tasksToProcess[..j]) <= multiset(tasksToProcess)
    requires forall t :: t in nodes ==> cur[t] == LowerBy(nodes[t], multiset(tasksToProcess[..j])[t])
    ensures multiset(tasksToProcess[..j + 1]) <= multiset(tasksToProcess)
    ensures var t := tasksToProcess[j]; t in cur && cur[t].count.Some? && cur[t].count.value > 0
    ensures var t := tasksToProcess[j];
      forall u :: u in nodes ==> cur[t := Decrement(cur[t])][u] == LowerBy(nodes[u], multiset(tasksToProcess[..j + 1])[u])
  {
    var t := tasksToProcess[j];
    assert multiset(tasksToProcess[..j + 1]) == multiset(tasksToProcess[..j]) + multiset{t} by {
      assert tasksToProcess[..j + 1] == tasksToProcess[..j] + [t];
    }
    PrefixMultiset(tasksToProcess, j + 1);
  }

  /** The closing loop of a sweep: every listed task has its count lowered by
      one per occurrence in the list; nothing else changes. */
  method Lower<T(==)>(nodes: map<T, Node<T>>, tasksToProcess: seq<T>) returns (nodes': map<T, Node<T>>)
    requires forall t :: t in tasksToProcess ==> t in nodes && nodes[t].count.Some?
    requires forall t :: t in nodes && nodes[t].count.Some? ==> nodes[t].count.value >= multiset(tasksToProcess)[t]
    ensures forall t :: t in nodes' <==> t in nodes
    ensures forall t :: t in nodes ==> nodes'[t] == LowerBy(nodes[t], multiset(tasksToProcess)[t])
  {
    nodes' := nodes;
    for j := 0 to |tasksToProcess|
      invariant forall t :: t in nodes' <==> t in nodes
      invariant multiset(tasksToProcess[..j]) <= multiset(tasksToProcess)
      invariant forall t :: t in nodes ==> nodes'[t] == LowerBy(nodes[t], multiset(tasksToProcess[..j])[t])
    {
      var t := tasksToProcess[j];
      LowerStep(nodes, tasksToProcess, j, nodes');
      nodes' := nodes'[t := Decrement(nodes'[t])];
    }
    assert tasksToProcess[..|tasksToProcess|] == tasksToProcess;
  }

  /** The counts of a swept graph can be lowered: every collected task is a
      key still holding a count at least its number of occurrences. */
  lemma LoweringAllowed<T(!new)>(pairs: seq<Pair<T>>, keys: seq<T>, before: map<T, Node<T>>, swept: map<T, Node<T>>, retired: set<T>, k: nat)
    requires RoundState(pairs, keys, before, retired, k)
    requires forall t :: t in swept <==> t in keys
    requires forall t :: t in keys ==> swept[t] == Swept(before[t])
    ensures forall t :: t in Collect(pairs, Batch(pairs, keys, k)) ==> t in swept && swept[t].count.Some?
    ensures forall t :: t in swept && swept[t].count.Some? ==> swept[t].count.value >= multiset(Collect(pairs, Batch(pairs, keys, k)))[t]
  {
    forall t | t in Collect(pairs, Batch(pairs, keys, k))
      ensures t in swept && swept[t].count.Some?
    {
      CollectedUnretired(pairs, k, t);
      SweptRetired(pairs, keys, before, retired, k, t);
    }
    forall t | t in swept && swept[t].count.Some?
      ensures swept[t].count.value >= multiset(Collect(pairs, Batch(pairs, keys, k)))[t]
    {
      SweptCount(pairs, keys, before, retired, k, t);
    }
  }

  /** The tasks retired after sweep k + 1 are those retired before it and those it emitted. */
  lemma RetiredAfterSweepSet<T(!new)>(pairs: seq<Pair<T>>, k: nat)
    ensures ReadySet(pairs, k) + Elements(Batch(pairs, Keys(pairs), k)) == ReadySet(pairs, k + 1)
  {
    forall x
      ensures x in ReadySet(pairs, k) + Elements(Batch(pairs, Keys(pairs), k)) <==> x in ReadySet(pairs, k + 1)
    {
      RetiredAfterSweep(pairs, k, x);
    }
  }

  /** A key's node after sweep k and the lowering is as the state after k + 1 sweeps demands. */
  lemma LoweredNode<T(!new)>(pairs: seq<Pair<T>>, keys: seq<T>, before: map<T, Node<T>>, tasksToProcess: seq<T>, k: nat,
                             t: T, swept: Node<T>, lowered: Node<T>)
    requires RoundState(pairs, keys, before, ReadySet(pairs, k), k)
    requires tasksToProcess == Collect(pairs, Batch(pairs, keys, k))
    requires t in keys && swept == Swept(before[t])
    requires swept.count.Some? ==> swept.count.value >= multiset(tasksToProcess)[t]
    requires lowered == LowerBy(swept, multiset(tasksToProcess)[t])
    ensures lowered.dependents == Dependents(pairs, t)
    ensures lowered.count.None? <==> t in ReadySet(pairs, k + 1)
    ensures lowered.count.Some? ==> lowered.count.value + PredsIn(pairs, t, ReadySet(pairs, k + 1)) == InDegree(pairs, t)
  {
    SweptRetired(pairs, keys, before, ReadySet(pairs, k), k, t);
    if swept.count.Some? {
      SweptCount(pairs, keys, before, ReadySet(pairs, k), k, t);
      RetiredAfterSweepSet(pairs, k);
    }
  }

  /** After the counts are lowered, the graph is the state after k + 1 sweeps. */
  lemma AfterLowering<T(!new)>(pairs: seq<Pair<T>>, keys: seq<T>, before: map<T, Node<T>>, swept: map<T, Node<T>>,
                               tasksToProcess: seq<T>, nodes: map<T, Node<T>>, k: nat)
    requires RoundState(pairs, keys, before, ReadySet(pairs, k), k)
    requires tasksToProcess == Collect(pairs, Batch(pairs, keys, k))
    requires forall t :: t in swept <==> t in keys
    requires forall t :: t in keys ==> swept[t] == Swept(before[t])
    requires forall t :: t in swept && swept[t].count.Some? ==> swept[t].count.value >= multiset(tasksToProcess)[t]
    requires forall t :: t in nodes <==> t in swept
    requires forall t :: t in swept ==> nodes[t] == LowerBy(swept[t], multiset(tasksToProcess)[t])
    ensures RoundState(pairs, keys, nodes, ReadySet(pairs, k + 1), k + 1)
  {
    forall t | t in nodes
      ensures nodes[t].dependents == Dependents(pairs, t)
      ensures nodes[t].count.None? <==> t in ReadySet(pairs, k + 1)
      ensures nodes[t].count.Some? ==> nodes[t].count.value + PredsIn(pairs, t, ReadySet(pairs, k + 1)) == InDegree(pairs, t)
    {
      LoweredNode(pairs, keys, before, tasksToProcess, k, t, swept[t], nodes[t]);
    }
    RoundStateIntro(pairs, keys, nodes, k + 1);
  }

  /** The state after k sweeps, assembled from its parts. */
  lemma RoundStateIntro<T(!new)>(pairs: seq<Pair<T>>, keys: seq<T>, nodes: map<T, Node<T>>, k: nat)
    requires keys == Keys(pairs)
    requires forall t :: t in nodes <==> t in keys
    requires forall t :: t in nodes ==> nodes[t].dependents == Dependents(pairs, t)
    requires forall t :: t in nodes ==> (nodes[t].count.None? <==> t in ReadySet(pairs, k))
    requires forall t :: t in nodes && nodes[t].count.Some? ==> nodes[t].count.value + PredsIn(pairs, t, ReadySet(pairs, k)) == InDegree(pairs, t)
    ensures RoundState(pairs, keys, nodes, ReadySet(pairs, k), k)
  {
  }

  /** The keys not yet emitted after k sweeps. */
  ghost function Unretired<T(!new)>(pairs: seq<Pair<T>>, k: nat): set<T> {
    (set x | x in Keys(pairs)) - ReadySet(pairs, k)
  }

  /** A sweep never brings a task back, and one that emits something shrinks the rest. */
  lemma UnretiredShrinks<T(!new)>(pairs: seq<Pair<T>>, k: nat, emitted: bool)
    requires emitted ==> Batch(pairs, Keys(pairs), k) != []
    ensures Unretired(pairs, k + 1) <= Unretired(pairs, k)
    ensures emitted ==> Unretired(pairs, k + 1) < Unretired(pairs, k)
    ensures |Unretired(pairs, k + 1)| <= |Unretired(pairs, k)|
    ensures emitted ==> |Unretired(pairs, k + 1)| < |Unretired(pairs, k)|
  {
    forall x | x in ReadySet(pairs, k)
      ensures x in ReadySet(pairs, k + 1)
    {
      ReadyByMonotone(pairs, k, k + 1, x);
    }
    if emitted {
      var x := Batch(pairs, Keys(pairs), k)[0];
      BatchMembers(pairs, Keys(pairs), k, x);
      assert x in Unretired(pairs, k) && x !in Unretired(pairs, k + 1);
    }
    SubsetCard(Unretired(pairs, k + 1), Unretired(pairs, k));
  }

  /** A subset is no larger than its superset, and a proper one is smaller. */
  lemma SubsetCard<T>(a: set<T>, b: set<T>)
    requires a <= b
    ensures |a| <= |b|
    ensures a < b ==> |a| < |b|
  {
    assert b == a + (b - a);
    if a < b {
      var x :| x in b - a;
    }
  }

  /** A sweep that leaves no positive count emits every key. */
  lemma FinalSweep<T(!new)>(pairs: seq<Pair<T>>, keys: seq<T>, nodes: map<T, Node<T>>, retired: set<T>, k: nat)
    requires RoundState(pairs, keys, nodes, retired, k)
    requires forall t :: t in keys ==> !Blocked(nodes[t])
    ensures forall t :: t in keys ==> ReadyBy(pairs, k + 1, t)
  {
    forall t | t in keys
      ensures ReadyBy(pairs, k + 1, t)
    {
      SweepDecision(pairs, keys, nodes, retired, k, t);
      if ReadyBy(pairs, k, t) {
        ReadyByMonotone(pairs, k, k + 1, t);
      }
    }
  }

  /** What one sweep over the state after k sweeps establishes: it emitted
      sweep k of the reference order and collected the dependents of those
      tasks; Catch22 there means a cycle; the counts can be lowered; a sweep
      with no positive count finishes; and the tasks not yet emitted dwindle. */
  lemma SweepOutcome<T(!new)>(pairs: seq<Pair<T>>, keys: seq<T>, before: map<T, Node<T>>, k: nat,
                              emitted: seq<T>, swept: map<T, Node<T>>, tasksToProcess: seq<T>, remaining: bool)
    requires RoundState(pairs, keys, before, ReadySet(pairs, k), k)
    requires emitted == Filter(keys, EmittedSet(pairs, k))
    requires forall t :: t in emitted ==> t in before
    requires tasksToProcess == Gather(before, emitted)
    requires remaining <==> exists t :: t in keys && Blocked(before[t])
    requires forall t :: t in swept <==> t in before
    requires forall t :: t in before ==> swept[t] == if t in keys then Swept(before[t]) else before[t]
    ensures emitted == Batch(pairs, keys, k)
    ensures tasksToProcess == Collect(pairs, emitted)
    ensures tasksToProcess == [] && remaining ==> Cyclic(pairs)
    ensures forall t :: t in tasksToProcess ==> t in swept && swept[t].count.Some?
    ensures forall t :: t in swept && swept[t].count.Some? ==> swept[t].count.value >= multiset(tasksToProcess)[t]
    ensures !remaining ==> forall t :: t in keys ==> ReadyBy(pairs, k + 1, t)
    ensures Unretired(pairs, k + 1) <= Unretired(pairs, k)
    ensures emitted != [] ==> Unretired(pairs, k + 1) < Unretired(pairs, k)
    ensures emitted != [] ==> |Unretired(pairs, k + 1)| < |Unretired(pairs, k)|
  {
    var retired := ReadySet(pairs, k);
    SweepMeaning(pairs, before, k);
    if tasksToProcess == [] && remaining {
      var w :| w in keys && Blocked(before[w]);
      BlockedIsCyclic(pairs, keys, before, retired, k, w);
    }
    LoweringAllowed(pairs, keys, before, swept, retired, k);
    if !remaining {
      FinalSweep(pairs, keys, before, retired, k);
    }
    UnretiredShrinks(pairs, k, emitted != []);
  }

  /** One pass of the loop of sort_tasks over the graph after k sweeps: sweep
      it, and stop with Catch22 (stuck) when positive counts remain but no
      dependents were collected; otherwise lower the collected counts, which
      leaves the graph after k + 1 sweeps. */
  method Pass<T(==,!new)>(ghost pairs: seq<Pair<T>>, keys: seq<T>, nodes: map<T, Node<T>>, ghost k: nat)
    returns (emitted: seq<T>, nodes': map<T, Node<T>>, stuck: bool, remaining: bool)
    requires StateAfter(pairs, keys, nodes, k)
    ensures emitted == Batch(pairs, keys, k)
    ensures stuck ==> Cyclic(pairs)
    ensures !stuck ==> StateAfter(pairs, keys, nodes', k + 1)
    ensures !stuck ==> Unretired(pairs, k + 1) <= Unretired(pairs, k)
    ensures !stuck && remaining ==> Unretired(pairs, k + 1) < Unretired(pairs, k)
    ensures !stuck && remaining ==> |Unretired(pairs, k + 1)| < |Unretired(pairs, k)|
    ensures !stuck && !remaining ==> forall t :: t in keys ==> ReadyBy(pairs, k + 1, t)
  {
    var tasksToProcess;
    SweepReady(pairs, keys, nodes, ReadySet(pairs, k), k);
    emitted, nodes', tasksToProcess, remaining := Sweep(keys, nodes, EmittedSet(pairs, k));
    SweepOutcome(pairs, keys, nodes, k, emitted, nodes', tasksToProcess, remaining);
    stuck := tasksToProcess == [] && remaining;
    if !stuck {
      ghost var swept := nodes';
      nodes' := Lower(nodes', tasksToProcess);
      AfterLowering(pairs, keys, nodes, swept, tasksToProcess, nodes', k);
    }
  }

  /** sort_tasks: build the graph, then sweep it until no count is positive. */
  method SortTasks<T(==,!new)>(pairs: seq<Pair<T>>) returns (r: Outcome<T>)
    ensures r.Catch22? <==> Cyclic(pairs)
    ensures r.Sorted? ==> r.order == Schedule(pairs)
    ensures r.Sorted? ==> IsTopologicalOrder(pairs, r.order)
  {
    var g := CreateGraph(pairs);
    InitialRoundState(pairs, g.keys, g.nodes);
    r := SweepAll(pairs, g.keys, g.nodes);
    ScheduleCorrect(pairs);
  }

  /** The loop of sort_tasks over the freshly built graph. A sweep emits and
      retires every task with count 0, in key order, and collects their
      dependents; the loop fails with Catch22 when positive counts remain and
      nothing was collected; otherwise each collected task has its count
      lowered once per occurrence, and the loop goes on while some count was
      positive. */
  method SweepAll<T(==,!new)>(ghost pairs: seq<Pair<T>>, keys: seq<T>, nodes: map<T, Node<T>>) returns (r: Outcome<T>)
    requires StateAfter(pairs, keys, nodes, 0)
    ensures r.Catch22? <==> Cyclic(pairs)
    ensures r.Sorted? ==> r.order == Schedule(pairs)
  {
    var nodes := nodes;
    var order: seq<T> := [];
    ghost var k: nat := 0;
    var remaining := true;
    while remaining
      invariant StateAfter(pairs, keys, nodes, k)
      invariant order == Rounds(pairs, keys, k)
      invariant !remaining ==> !Cyclic(pairs) && order == Schedule(pairs)
      decreases |Unretired(pairs, k)|, remaining
    {
      var emitted, stuck;
      emitted, nodes, stuck, remaining := Pass(pairs, keys, nodes, k);
      order := order + emitted;
      if stuck {
        return Catch22;
      }
      k := k + 1;
      if !remaining {
        AllReady(pairs, k);
      }
    }
    r := Sorted(order);
  }
}
