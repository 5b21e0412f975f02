/** The graph builder (create_graph in sort.py): a list of (predecessor,
    dependent) pairs becomes an insertion-ordered dictionary from task to node. */
module TaskGraph {
  import opened Seqs

  datatype Option<T> = None | Some(value: T)

  /** One constraint: `pred` must be emitted before `dep`. */
  datatype Pair<T> = Pair(pred: T, dep: T)

  /** A task's entry: its dependency count (None once the task is retired)
      and the tasks that depend on it. */
  datatype Node<T> = Node(count: Option<nat>, dependents: seq<T>)

  /** A dictionary that remembers insertion order: `keys` lists the keys of
      `nodes` in the order they were first inserted. */
  datatype Graph<T> = Graph(keys: seq<T>, nodes: map<T, Node<T>>)

  /** The task x occurs in some pair, on either side. */
  ghost predicate Mentions<T(!new)>(pairs: seq<Pair<T>>, x: T) {
    exists i :: 0 <= i < |pairs| && (pairs[i].pred == x || pairs[i].dep == x)
  }

  /** The tokens in reading order: each pair's predecessor, then its dependent. */
  function Tokens<T(==,!new)>(pairs: seq<Pair<T>>): (s: seq<T>)
    ensures |s| == 2 * |pairs|
  {
    if pairs == [] then []
    else Tokens(pairs[..|pairs| - 1]) + [pairs[|pairs| - 1].pred, pairs[|pairs| - 1].dep]
  }

  /** Pair i contributes tokens 2i and 2i + 1. */
  lemma {:induction false} TokensAt<T(!new)>(pairs: seq<Pair<T>>, i: nat)
    requires i < |pairs|
    ensures Tokens(pairs)[2 * i] == pairs[i].pred && Tokens(pairs)[2 * i + 1] == pairs[i].dep
  {
    var p := pairs[..|pairs| - 1];
    if i < |p| {
      TokensAt(p, i);
    }
  }

  /** The graph's keys: the tasks of the pairs by first appearance, each pair
      contributing its predecessor and then its dependent. */
  function Keys<T(==)>(pairs: seq<Pair<T>>): seq<T> {
    if pairs == [] then []
    else
      var last := pairs[|pairs| - 1];
      AddLast(AddLast(Keys(pairs[..|pairs| - 1]), last.pred), last.dep)
  }

  /** The keys are the tokens deduplicated in order of first occurrence. */
  lemma {:induction false} KeysDedup<T(!new)>(pairs: seq<Pair<T>>)
    ensures Keys(pairs) == Dedup(Tokens(pairs))
  {
    if pairs != [] {
      var p := pairs[..|pairs| - 1];
      KeysDedup(p);
      DedupTwoMore(Tokens(p), pairs[|pairs| - 1].pred, pairs[|pairs| - 1].dep);
    }
  }

  /** No task is a key twice. */
  lemma KeysNoDup<T(!new)>(pairs: seq<Pair<T>>)
    ensures NoDup(Keys(pairs))
  {
    KeysDedup(pairs);
  }

  /** The keys are exactly the tasks that occur in some pair. */
  lemma KeysMentions<T(!new)>(pairs: seq<Pair<T>>, x: T)
    ensures x in Keys(pairs) <==> Mentions(pairs, x)
  {
    KeysDedup(pairs);
    var s := Tokens(pairs);
    if x in s {
      var j :| 0 <= j < |s| && s[j] == x;
      var i := j / 2;
      assert j == 2 * i || j == 2 * i + 1;
      TokensAt(pairs, i);
    }
    if Mentions(pairs, x) {
      var i :| 0 <= i < |pairs| && (pairs[i].pred == x || pairs[i].dep == x);
      TokensAt(pairs, i);
    }
  }

  /** Both tasks of every pair are keys. */
  lemma PairInKeys<T(!new)>(pairs: seq<Pair<T>>, i: nat)
    requires i < |pairs|
    ensures pairs[i].pred in Keys(pairs) && pairs[i].dep in Keys(pairs)
  {
    KeysMentions(pairs, pairs[i].pred);
    KeysMentions(pairs, pairs[i].dep);
  }

  /** The number of pairs whose dependent is t, duplicates and self-loops included. */
  ghost function InDegree<T(!new)>(pairs: seq<Pair<T>>, t: T): (n: nat)
    ensures n <= |pairs|
  {
    if pairs == [] then 0
    else InDegree(pairs[..|pairs| - 1], t) + if pairs[|pairs| - 1].dep == t then 1 else 0
  }

  /** The number of pairs whose dependent is t and whose predecessor lies in s. */
  ghost function PredsIn<T(!new)>(pairs: seq<Pair<T>>, t: T, s: set<T>): (n: nat)
    ensures n <= InDegree(pairs, t)
  {
    if pairs == [] then 0
    else PredsIn(pairs[..|pairs| - 1], t, s) + if pairs[|pairs| - 1].dep == t && pairs[|pairs| - 1].pred in s then 1 else 0
  }

  /** The dependents of t: the dependent of every pair whose predecessor is t,
      in input order, one entry per pair. */
  function Dependents<T(==,!new)>(pairs: seq<Pair<T>>, t: T): (ds: seq<T>)
    ensures |ds| <= |pairs|
  {
    if pairs == [] then []
    else Dependents(pairs[..|pairs| - 1], t) + if pairs[|pairs| - 1].pred == t then [pairs[|pairs| - 1].dep] else []
  }

  /** The predecessors of t: the predecessor of every pair whose dependent is t,
      in input order, one entry per pair. */
  ghost function Predecessors<T(!new)>(pairs: seq<Pair<T>>, t: T): seq<T> {
    if pairs == [] then []
    else Predecessors(pairs[..|pairs| - 1], t) + if pairs[|pairs| - 1].dep == t then [pairs[|pairs| - 1].pred] else []
  }

  /** The predecessor of every pair is listed among the predecessors of its dependent. */
  lemma {:induction false} PredecessorOf<T(!new)>(pairs: seq<Pair<T>>, i: nat)
    requires i < |pairs|
    ensures pairs[i].pred in Predecessors(pairs, pairs[i].dep)
  {
    var p := pairs[..|pairs| - 1];
    if i < |p| {
      PredecessorOf(p, i);
      assert p[i] == pairs[i];
    }
  }

  /** Every listed predecessor comes from a pair. */
  lemma {:induction false} PredecessorPair<T(!new)>(pairs: seq<Pair<T>>, t: T, x: T) returns (i: nat)
    requires x in Predecessors(pairs, t)
    ensures i < |pairs| && pairs[i] == Pair(x, t)
  {
    var p := pairs[..|pairs| - 1];
    if x in Predecessors(p, t) {
      i := PredecessorPair(p, t, x);
      assert p[i] == pairs[i];
    } else {
      i := |pairs| - 1;
    }
  }

  /** t has no predecessor exactly when no pair has t as its dependent. */
  lemma {:induction false} InDegreeZero<T(!new)>(pairs: seq<Pair<T>>, t: T)
    ensures InDegree(pairs, t) == 0 <==> forall i :: 0 <= i < |pairs| ==> pairs[i].dep != t
  {
    if pairs != [] {
      var p := pairs[..|pairs| - 1];
      assert forall i :: 0 <= i < |p| ==> p[i] == pairs[i];
      InDegreeZero(p, t);
    }
  }

  /** Every predecessor of t lies in s exactly when PredsIn counts all of t's pairs. */
  lemma {:induction false} PredsInAll<T(!new)>(pairs: seq<Pair<T>>, t: T, s: set<T>)
    ensures PredsIn(pairs, t, s) == InDegree(pairs, t) <==>
              forall i :: 0 <= i < |pairs| && pairs[i].dep == t ==> pairs[i].pred in s
  {
    if pairs != [] {
      var p := pairs[..|pairs| - 1];
      assert forall i :: 0 <= i < |p| ==> p[i] == pairs[i];
      PredsInAll(p, t, s);
    }
  }

  /** When fewer than all pairs into t come from s, some pair into t comes from outside s. */
  lemma MissingPredecessor<T(!new)>(pairs: seq<Pair<T>>, t: T, s: set<T>) returns (i: nat)
    requires PredsIn(pairs, t, s) != InDegree(pairs, t)
    ensures i < |pairs| && pairs[i].dep == t && pairs[i].pred !in s
  {
    PredsInAll(pairs, t, s);
    i :| 0 <= i < |pairs| && pairs[i].dep == t && pairs[i].pred !in s;
  }

  /** Dependents keeps one entry per copy of each pair (t, x). */
  lemma {:induction false} DependentsCount<T(!new)>(pairs: seq<Pair<T>>, t: T, x: T)
    ensures multiset(Dependents(pairs, t))[x] == multiset(pairs)[Pair(t, x)]
  {
    if pairs != [] {
      var p := pairs[..|pairs| - 1];
      assert pairs == p + [pairs[|pairs| - 1]];
      DependentsCount(p, t, x);
    }
  }

  /** x is a dependent of t exactly when (t, x) is one of the pairs. */
  lemma DependentsMembers<T(!new)>(pairs: seq<Pair<T>>, t: T, x: T)
    ensures x in Dependents(pairs, t) <==> Pair(t, x) in pairs
  {
    DependentsCount(pairs, t, x);
  }

  /** No predecessor lies in the empty set. */
  lemma {:induction false} PredsInEmpty<T(!new)>(pairs: seq<Pair<T>>, t: T)
    ensures PredsIn(pairs, t, {}) == 0
  {
    if pairs != [] {
      PredsInEmpty(pairs[..|pairs| - 1], t);
    }
  }

  /** Counting over a union of disjoint sets adds up. */
  lemma {:induction false} PredsInUnion<T(!new)>(pairs: seq<Pair<T>>, t: T, a: set<T>, b: set<T>)
    requires a * b == {}
    ensures PredsIn(pairs, t, a + b) == PredsIn(pairs, t, a) + PredsIn(pairs, t, b)
  {
    if pairs != [] {
      var p := pairs[..|pairs| - 1];
      PredsInUnion(p, t, a, b);
      var x := pairs[|pairs| - 1].pred;
      assert x !in a * b;
    }
  }

  /** Counting the predecessors drawn from {r} counts the copies of the pair (r, t). */
  lemma {:induction false} PredsInSingleton<T(!new)>(pairs: seq<Pair<T>>, t: T, r: T)
    ensures PredsIn(pairs, t, {r}) == multiset(pairs)[Pair(r, t)]
  {
    if pairs != [] {
      var p := pairs[..|pairs| - 1];
      assert pairs == p + [pairs[|pairs| - 1]];
      PredsInSingleton(p, t, r);
    }
  }

  /** Reading one more pair: its two tokens are inserted, predecessor first. */
  lemma KeysStep<T(!new)>(pairs: seq<Pair<T>>, i: nat)
    requires i < |pairs|
    ensures Keys(pairs[..i + 1]) == AddLast(AddLast(Keys(pairs[..i]), pairs[i].pred), pairs[i].dep)
  {
    assert pairs[..i + 1][..i] == pairs[..i];
  }

  /** Reading one more pair raises the in-degree of its dependent and extends
      the dependents of its predecessor; nothing else changes. */
  lemma NodeStep<T(!new)>(pairs: seq<Pair<T>>, i: nat, t: T)
    requires i < |pairs|
    ensures InDegree(pairs[..i + 1], t) == InDegree(pairs[..i], t) + if pairs[i].dep == t then 1 else 0
    ensures Dependents(pairs[..i + 1], t) == Dependents(pairs[..i], t) + if pairs[i].pred == t then [pairs[i].dep] else []
  {
    assert pairs[..i + 1][..i] == pairs[..i];
  }

  /** The count a dictionary holds for t, 0 when t is absent. */
  ghost function CountOf<T>(nodes: map<T, Node<T>>, t: T): nat {
    if t in nodes && nodes[t].count.Some? then nodes[t].count.value else 0
  }

  /** The dependents a dictionary holds for t, none when t is absent. */
  ghost function DependentsOf<T>(nodes: map<T, Node<T>>, t: T): seq<T> {
    if t in nodes then nodes[t].dependents else []
  }

  /** A dictionary that agrees with the first i pairs, updated by the (i+1)-th,
      agrees with the first i + 1 pairs. */
  lemma NodesStep<T(!new)>(pairs: seq<Pair<T>>, i: nat, before: map<T, Node<T>>, after: map<T, Node<T>>)
    requires i < |pairs|
    requires forall t :: CountOf(before, t) == InDegree(pairs[..i], t)
    requires forall t :: DependentsOf(before, t) == Dependents(pairs[..i], t)
    requires forall t :: CountOf(after, t) == CountOf(before, t) + if t == pairs[i].dep then 1 else 0
    requires forall t :: DependentsOf(after, t) == DependentsOf(before, t) + if t == pairs[i].pred then [pairs[i].dep] else []
    ensures forall t :: CountOf(after, t) == InDegree(pairs[..i + 1], t)
    ensures forall t :: DependentsOf(after, t) == Dependents(pairs[..i + 1], t)
  {
    forall t
      ensures CountOf(after, t) == InDegree(pairs[..i + 1], t)
      ensures DependentsOf(after, t) == Dependents(pairs[..i + 1], t)
    {
      NodeStep(pairs, i, t);
    }
  }

  /** Recording a predecessor a of b: only the dependents of a change, by b appended. */
  lemma PredecessorUpdate<T>(before: map<T, Node<T>>, after: map<T, Node<T>>, a: T, b: T)
    requires a in before ==> after == before[a := before[a].(dependents := before[a].dependents + [b])]
    requires a !in before ==> after == before[a := Node(Some(0), [b])]
    ensures forall t :: CountOf(after, t) == CountOf(before, t)
    ensures forall t :: DependentsOf(after, t) == DependentsOf(before, t) + if t == a then [b] else []
  {
  }

  /** Recording a dependent b: only the count of b changes, by one. */
  lemma DependentUpdate<T>(before: map<T, Node<T>>, after: map<T, Node<T>>, b: T)
    requires b in before ==> before[b].count.Some? && after == before[b := before[b].(count := Some(before[b].count.value + 1))]
    requires b !in before ==> after == before[b := Node(Some(1), [])]
    ensures forall t :: CountOf(after, t) == CountOf(before, t) + if t == b then 1 else 0
    ensures forall t :: DependentsOf(after, t) == DependentsOf(before, t)
  {
  }

  /** create_graph: one pass over the pairs. A new predecessor gets count 0 and
      the dependent as its only dependent; a known one gets the dependent
      appended. A new dependent gets count 1; a known one gets its count raised
      by one. */
  method CreateGraph<T(==,!new)>(pairs: seq<Pair<T>>) returns (g: Graph<T>)
    ensures g.keys == Keys(pairs)
    ensures forall t :: t in g.nodes <==> t in g.keys
    ensures forall t :: t in g.nodes ==> g.nodes[t] == Node(Some(InDegree(pairs, t)), Dependents(pairs, t))
  {
    var keys: seq<T> := [];
    var nodes: map<T, Node<T>> := map[];
    for i := 0 to |pairs|
      invariant keys == Keys(pairs[..i])
      invariant forall t :: t in nodes <==> t in keys
      invariant forall t :: t in nodes ==> nodes[t].count.Some?
      invariant forall t :: CountOf(nodes, t) == InDegree(pairs[..i], t)
      invariant forall t :: DependentsOf(nodes, t) == Dependents(pairs[..i], t)
    {
      KeysStep(pairs, i);
      var a, b := pairs[i].pred, pairs[i].dep;
      ghost var keys0, nodes0 := keys, nodes;
      if a !in nodes {
        nodes := nodes[a := Node(Some(0), [b])];
        keys := keys + [a];
      } else {
        nodes := nodes[a := nodes[a].(dependents := nodes[a].dependents + [b])];
      }
      assert keys == AddLast(keys0, a);
      PredecessorUpdate(nodes0, nodes, a, b);
      ghost var keys1, nodes1 := keys, nodes;
      if b !in nodes {
        nodes := nodes[b := Node(Some(1), [])];
        keys := keys + [b];
      } else {
        nodes := nodes[b := nodes[b].(count := Some(nodes[b].count.value + 1))];
      }
      assert keys == AddLast(keys1, b);
      DependentUpdate(nodes1, nodes, b);
      NodesStep(pairs, i, nodes0, nodes);
    }
    assert pairs[..|pairs|] == pairs;
    g := Graph(keys, nodes);
    forall t | t in g.nodes
      ensures g.nodes[t] == Node(Some(InDegree(pairs, t)), Dependents(pairs, t))
    {
      assert CountOf(nodes, t) == InDegree(pairs, t) && DependentsOf(nodes, t) == Dependents(pairs, t);
    }
  }
}
