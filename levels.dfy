/** Topological level ordering of the node graph: `computeEdgesToMap`, `computeRoots`
    and `computeLevelOrder` of regl-pipeline.js, with the ordering obtained by
    concatenating the levels. */
module Levels {
  import opened Base

  /** The JavaScript `Map` from a node to the `Set` of its successors; each successor
      sequence is in insertion order and has no duplicates. */
  type EdgeMap = map<string, seq<string>>

  predicate WellFormedEdgeMap(E: EdgeMap) {
    forall u :: u in E ==> Distinct(E[u])
  }

  /** The set of nodes with an edge into `x` (its parents), among the keys in `S`. */
  ghost function ParentsIn(E: EdgeMap, S: set<string>, x: string): set<string> {
    set u | u in S && u in E && x in E[u]
  }

  ghost function Parents(E: EdgeMap, x: string): set<string> {
    ParentsIn(E, E.Keys, x)
  }

  predicate HasParent(E: EdgeMap, v: string) {
    exists u :: u in E && v in E[u]
  }

  /** Every edge endpoint is a node of V. */
  ghost predicate Closed(V: seq<string>, E: EdgeMap) {
    (forall u :: u in E ==> u in V) && (forall u, v :: u in E && v in E[u] ==> v in V)
  }

  /** computeEdgesToMap: a key for every node of V and every edge source; the
      successors of u are the targets of u's edges, each once. */
  method ComputeEdgesToMap(V: seq<string>, E: seq<(string, string)>) returns (m: EdgeMap)
    ensures m.Keys == (set v | v in V) + (set e | e in E :: e.0)
    ensures WellFormedEdgeMap(m)
    ensures forall u, v :: u in m ==> (v in m[u] <==> (u, v) in E)
  {
    m := map[];
    for i := 0 to |V|
      invariant m.Keys == set v | v in V[..i]
      invariant forall u :: u in m ==> m[u] == []
    {
      if V[i] !in m {
        m := m[V[i] := []];
      }
    }
    assert V[..|V|] == V;
    m := AddEdges(m, E);
  }

  /** The edge loop of computeEdgesToMap (lines 48-54), from a map without edges. */
  method AddEdges(m0: EdgeMap, E: seq<(string, string)>) returns (m: EdgeMap)
    requires forall u :: u in m0 ==> m0[u] == []
    ensures HoldsEdges(m0, m, E)
  {
    m := m0;
    assert (set e | e in E[..0] :: e.0) == {};
    for j := 0 to |E|
      invariant HoldsEdges(m0, m, E[..j])
    {
      var (u, v) := E[j];
      ghost var before := m;
      if u !in m {
        m := m[u := []];
      }
      if v !in m[u] {
        m := m[u := m[u] + [v]];
      }
      assert m == WithEdge(before, u, v);
      assert E[..j + 1] == E[..j] + [(u, v)];
      EdgeStep(m0, before, E[..j], u, v);
    }
    assert E[..|E|] == E;
  }

  /** The map after one edge (u, v) is added. */
  function WithEdge(m: EdgeMap, u: string, v: string): EdgeMap {
    var succ := if u in m then m[u] else [];
    m[u := if v in succ then succ else succ + [v]]
  }

  /** m extends m0 with exactly the edges es: the meaning of the map being built. */
  ghost predicate HoldsEdges(m0: EdgeMap, m: EdgeMap, es: seq<(string, string)>) {
    && m.Keys == m0.Keys + (set e | e in es :: e.0)
    && WellFormedEdgeMap(m)
    && forall u, v :: u in m ==> (v in m[u] <==> (u, v) in es)
  }

  lemma EdgeStep(m0: EdgeMap, m: EdgeMap, es: seq<(string, string)>, u: string, v: string)
    requires HoldsEdges(m0, m, es)
    ensures HoldsEdges(m0, WithEdge(m, u, v), es + [(u, v)])
  {
    EdgeStepKeys(m0, m, es, u, v);
    EdgeStepDistinct(m, u, v);
    EdgeStepSucc(m, es, u, v);
  }

  lemma EdgeStepKeys(m0: EdgeMap, m: EdgeMap, es: seq<(string, string)>, u: string, v: string)
    requires m.Keys == m0.Keys + (set e | e in es :: e.0)
    ensures WithEdge(m, u, v).Keys == m0.Keys + (set e | e in es + [(u, v)] :: e.0)
  {
    assert (set e | e in es + [(u, v)] :: e.0) == (set e | e in es :: e.0) + {u};
  }

  lemma EdgeStepDistinct(m: EdgeMap, u: string, v: string)
    requires WellFormedEdgeMap(m)
    ensures WellFormedEdgeMap(WithEdge(m, u, v))
  {
    var succ := if u in m then m[u] else [];
    if v !in succ {
      DistinctAppend(succ, [v]);
    }
  }

  lemma EdgeStepSucc(m: EdgeMap, es: seq<(string, string)>, u: string, v: string)
    requires (set e | e in es :: e.0) <= m.Keys
    requires forall w, x :: w in m ==> (x in m[w] <==> (w, x) in es)
    ensures forall w, x :: w in WithEdge(m, u, v) ==> (x in WithEdge(m, u, v)[w] <==> (w, x) in es + [(u, v)])
  {
    var m' := WithEdge(m, u, v);
    var es' := es + [(u, v)];
    var succ := if u in m then m[u] else [];
    forall x ensures x in m'[u] <==> (u, x) in es' {
      assert (u, x) in es' <==> (u, x) in es || x == v;
      if (u, x) in es {
        assert u in (set e | e in es :: e.0);
      }
    }
    forall w, x | w in m' && w != u ensures x in m'[w] <==> (w, x) in es' {
      assert (w, x) in es' <==> (w, x) in es;
    }
  }

  /** The elements of s not in B, in order: what remains of a JavaScript `Set` built
      from s after deleting the members of B. */
  function Without(s: seq<string>, B: set<string>): seq<string> {
    if s == [] then []
    else (if s[0] in B then [] else [s[0]]) + Without(s[1..], B)
  }

  lemma {:induction false} WithoutFacts(s: seq<string>, B: set<string>)
    ensures forall v :: v in Without(s, B) <==> v in s && v !in B
    ensures Distinct(s) ==> Distinct(Without(s, B))
  {
    if s != [] {
      WithoutFacts(s[1..], B);
      assert s == [s[0]] + s[1..];
    }
  }

  lemma {:induction false} WithoutTwice(s: seq<string>, A: set<string>, B: set<string>)
    ensures Without(Without(s, A), B) == Without(s, A + B)
  {
    if s != [] {
      WithoutTwice(s[1..], A, B);
      var rest := Without(s[1..], A);
      if s[0] !in A {
        var t := [s[0]] + rest;
        assert Without(s, A) == t;
        assert t != [] && t[0] == s[0] && t[1..] == rest;
        assert Without(t, B) == (if s[0] in B then [] else [s[0]]) + Without(rest, B);
      } else {
        assert Without(s, A) == rest;
        assert Without(s, A + B) == Without(s[1..], A + B);
      }
    }
  }

  /** The successors of the nodes of D. */
  ghost function TargetsOf(E: EdgeMap, D: set<string>): set<string> {
    set u, v | u in D && u in E && v in E[u] :: v
  }

  /** The roots of (V, E): the nodes of V, in V's order, that are not a successor of any node. */
  ghost function Roots(V: seq<string>, E: EdgeMap): (r: seq<string>)
    ensures forall v :: v in r <==> v in V && !HasParent(E, v)
    ensures Distinct(V) ==> Distinct(r)
  {
    assert forall v :: v in TargetsOf(E, E.Keys) <==> HasParent(E, v);
    WithoutFacts(V, TargetsOf(E, E.Keys));
    Without(V, TargetsOf(E, E.Keys))
  }

  /** computeRoots: V as a set, with every successor of every node deleted from it. */
  method ComputeRoots(V: seq<string>, E: EdgeMap) returns (S: seq<string>)
    ensures S == Roots(V, E)
  {
    S := V;
    WithoutNone(V);
    assert TargetsOf(E, {}) == {};
    ghost var done: set<string> := {};
    var keys := E.Keys;
    while keys != {}
      invariant done <= E.Keys && keys == E.Keys - done
      invariant S == Without(V, TargetsOf(E, done))
      decreases keys
    {
      var u :| u in keys;
      S := DeleteAll(S, E[u]);
      WithoutTwice(V, TargetsOf(E, done), Members(E[u]));
      assert TargetsOf(E, done + {u}) == TargetsOf(E, done) + Members(E[u]);
      done := done + {u};
      keys := keys - {u};
    }
    assert done == E.Keys;
  }

  /** The inner loop of lines 62-64: delete each destination from the set. */
  method DeleteAll(S0: seq<string>, dests: seq<string>) returns (S: seq<string>)
    ensures S == Without(S0, Members(dests))
  {
    S := S0;
    WithoutNone(S0);
    assert Members(dests[..0]) == {};
    for k := 0 to |dests|
      invariant S == Without(S0, Members(dests[..k]))
    {
      WithoutTwice(S0, Members(dests[..k]), {dests[k]});
      S := Without(S, {dests[k]});
      assert dests[..k + 1] == dests[..k] + [dests[k]];
      assert Members(dests[..k + 1]) == Members(dests[..k]) + {dests[k]};
    }
    assert dests[..|dests|] == dests;
  }

  lemma {:induction false} WithoutNone(s: seq<string>)
    ensures Without(s, {}) == s
  {
    if s != [] {
      WithoutNone(s[1..]);
      assert [s[0]] + s[1..] == s;
    }
  }

  /** All nodes of all levels, level after level: what `ordering` builds. */
  function Flatten(levels: seq<seq<string>>): seq<string> {
    if levels == [] then [] else Flatten(levels[..|levels| - 1]) + levels[|levels| - 1]
  }

  /** The properties a level order of (V, E) promises: level 0 is the roots, and
      the levels have the shape of LevelShape. */
  ghost predicate IsLevelOrder(V: seq<string>, E: EdgeMap, levels: seq<seq<string>>) {
    |levels| >= 1 && levels[0] == Roots(V, E) && LevelShape(E, levels)
  }

  /** No node occurs twice, each edge goes to a strictly later level, each node after
      level 0 has a parent in the level just before it, and only the last level is empty. */
  ghost predicate LevelShape(E: EdgeMap, levels: seq<seq<string>>) {
    && |levels| >= 1
    && levels[|levels| - 1] == []
    && (forall k :: 0 <= k < |levels| - 1 ==> levels[k] != [])
    && (forall k :: 0 <= k < |levels| ==> Distinct(levels[k]))
    && (forall k1, k2, x :: 0 <= k1 < |levels| && 0 <= k2 < |levels| && x in levels[k1] && x in levels[k2] ==> k1 == k2)
    && EdgesForward(E, levels)
    && (forall k, x {:trigger x in levels[k]} :: 0 < k < |levels| && x in levels[k] ==> exists u :: u in levels[k - 1] && u in E && x in E[u])
  }

  /** Every edge leads from a level to a strictly later one. */
  ghost predicate EdgesForward(E: EdgeMap, levels: seq<seq<string>>) {
    forall k1, k2, u, v :: 0 <= k1 < |levels| && 0 <= k2 < |levels| && u in levels[k1] && v in levels[k2] && u in E && v in E[u] ==> k1 < k2
  }

  /** An acyclic edge map: some ranking strictly increases along every edge. */
  ghost predicate Ranked(E: EdgeMap, rank: string -> nat) {
    forall u, v :: u in E && v in E[u] ==> rank(u) < rank(v)
  }

  ghost predicate Acyclic(E: EdgeMap) {
    exists rank: string -> nat :: Ranked(E, rank)
  }

  /** `parents.get(x) | 0` */
  function Get0(m: map<string, int>, x: string): int {
    if x in m then m[x] else 0
  }

  /** The parents of x not yet processed. */
  ghost function Unprocessed(E: EdgeMap, P: set<string>, x: string): set<string> {
    set u | u in E && u !in P && x in E[u]
  }

  /** How many parents of x are not yet processed: the value the source keeps in `parents`. */
  ghost function Remaining(E: EdgeMap, P: set<string>, x: string): nat {
    |Unprocessed(E, P, x)|
  }

  lemma RemainingStep(E: EdgeMap, P: set<string>, v: string, x: string)
    requires v in E && v !in P
    ensures Remaining(E, P + {v}, x) == Remaining(E, P, x) - (if x in E[v] then 1 else 0)
  {
    if x in E[v] {
      assert v in Unprocessed(E, P, x);
      assert Unprocessed(E, P + {v}, x) == Unprocessed(E, P, x) - {v};
    } else {
      assert Unprocessed(E, P + {v}, x) == Unprocessed(E, P, x);
    }
  }

  lemma ParentsInStep(E: EdgeMap, done: set<string>, u: string, x: string)
    requires u in E && u !in done
    ensures |ParentsIn(E, done + {u}, x)| == |ParentsIn(E, done, x)| + (if x in E[u] then 1 else 0)
  {
    if x in E[u] {
      assert ParentsIn(E, done + {u}, x) == ParentsIn(E, done, x) + {u};
    } else {
      assert ParentsIn(E, done + {u}, x) == ParentsIn(E, done, x);
    }
  }

  lemma {:induction false} DistinctCard(s: seq<string>)
    requires Distinct(s)
    ensures |set x | x in s| == |s|
  {
    if s != [] {
      DistinctCard(s[1..]);
      assert (set x | x in s) == (set x | x in s[1..]) + {s[0]};
      assert s[0] !in s[1..];
    }
  }

  lemma DistinctAppend(a: seq<string>, b: seq<string>)
    requires Distinct(a) && Distinct(b)
    requires forall x :: x in a ==> x !in b
    ensures Distinct(a + b)
  {
    forall i, j | 0 <= i < j < |a + b| ensures (a + b)[i] != (a + b)[j] {
      if j < |a| {
      } else if i >= |a| {
        assert (a + b)[i] == b[i - |a|] && (a + b)[j] == b[j - |a|];
      } else {
        assert (a + b)[i] in a && (a + b)[j] == b[j - |a|];
      }
    }
  }

  /** A non-empty set of nodes in which every member has a parent inside the set
      cannot exist in an acyclic graph. */
  lemma {:induction false} NoDescent(E: EdgeMap, rank: string -> nat, bad: set<string>, x: string)
    requires Ranked(E, rank)
    requires forall y :: y in bad ==> exists u :: u in bad && u in E && y in E[u]
    ensures x !in bad
    decreases rank(x)
  {
    if x in bad {
      var u :| u in bad && u in E && x in E[u];
      NoDescent(E, rank, bad, u);
    }
  }

  /** The parent counting loop of computeLevelOrder (lines 85-91). */
  method CountParents(V: seq<string>, E: EdgeMap) returns (parents: map<string, int>)
    requires WellFormedEdgeMap(E)
    ensures forall x :: x in parents <==> x in V || HasParent(E, x)
    ensures forall x :: x in parents ==> parents[x] == |Parents(E, x)|
  {
    parents := map v | v in V :: 0;
    ghost var done: set<string> := {};
    var keys := E.Keys;
    while keys != {}
      invariant done <= E.Keys && keys == E.Keys - done
      invariant forall x :: x in parents <==> x in V || exists u :: u in done && x in E[u]
      invariant forall x :: x in parents ==> parents[x] == |ParentsIn(E, done, x)|
      decreases keys
    {
      var u :| u in keys;
      ghost var before := parents;
      parents := AddParent(parents, E[u]);
      forall x | x in parents ensures parents[x] == |ParentsIn(E, done + {u}, x)| {
        ParentsInStep(E, done, u, x);
        assert x !in before ==> ParentsIn(E, done, x) == {};
      }
      done := done + {u};
      keys := keys - {u};
    }
    assert done == E.Keys;
  }

  /** The inner loop of lines 86-90: one more parent for each destination. */
  method AddParent(parents: map<string, int>, dests: seq<string>) returns (parents': map<string, int>)
    requires Distinct(dests)
    ensures forall x :: x in parents' <==> x in parents || x in dests
    ensures forall x :: x in parents' ==> parents'[x] == Get0(parents, x) + (if x in dests then 1 else 0)
  {
    parents' := parents;
    for k := 0 to |dests|
      invariant forall x :: x in parents' <==> x in parents || x in dests[..k]
      invariant forall x :: x in parents' ==> parents'[x] == Get0(parents, x) + (if x in dests[..k] then 1 else 0)
    {
      var v := dests[k];
      assert v !in dests[..k];
      parents' := parents'[v := Get0(parents', v) + 1];
      assert dests[..k + 1] == dests[..k] + [v];
    }
    assert dests[..|dests|] == dests;
  }

  // The invariants of the level loop, over the ghost map lvl from each reached node
  // to the index of its level and the set of processed nodes (whose successors have
  // had their parent count decremented).

  ghost predicate Counts(E: EdgeMap, parents: map<string, int>, P: set<string>) {
    forall x {:trigger parents[x]} :: x in parents ==> parents[x] == Remaining(E, P, x)
  }

  ghost predicate Settled(parents: map<string, int>, lvl: map<string, nat>) {
    && lvl.Keys <= parents.Keys
    && (forall x :: x in lvl ==> parents[x] == 0)
    && (forall x :: x in parents && parents[x] == 0 ==> x in lvl)
  }

  ghost predicate ParentsEarlier(E: EdgeMap, lvl: map<string, nat>) {
    forall x, u :: x in lvl && u in E && x in E[u] ==> u in lvl && lvl[u] < lvl[x]
  }

  /** lvl[x], as a separate symbol so that ParentJustBefore's witness does not
      re-trigger the quantifier. */
  ghost function LevelOf(lvl: map<string, nat>, x: string): nat
    requires x in lvl
  {
    lvl[x]
  }

  ghost predicate ParentJustBefore(E: EdgeMap, lvl: map<string, nat>) {
    forall x {:trigger LevelOf(lvl, x)} :: x in lvl && lvl[x] > 0 ==> exists u :: u in lvl && lvl[u] == lvl[x] - 1 && u in E && x in E[u]
  }

  ghost predicate LevelsMatch(levels: seq<seq<string>>, lvl: map<string, nat>) {
    && (forall k, x :: 0 <= k < |levels| && x in levels[k] ==> x in lvl && lvl[x] == k)
    && (forall x :: x in lvl ==> lvl[x] < |levels| && x in levels[lvl[x]])
  }

  /** State between two iterations of the level loop. */
  ghost predicate Frontier(E: EdgeMap, parents: map<string, int>,
                           levels: seq<seq<string>>, lvl: map<string, nat>, processed: set<string>) {
    && |levels| >= 1
    && (forall k :: 0 <= k < |levels| - 1 ==> levels[k] != [])
    && (forall k :: 0 <= k < |levels| ==> Distinct(levels[k]))
    && LevelsMatch(levels, lvl)
    && processed <= E.Keys
    && (forall x :: x in processed <==> x in lvl && lvl[x] < |levels| - 1)
    && Counts(E, parents, processed)
    && Settled(parents, lvl)
    && ParentsEarlier(E, lvl)
    && ParentJustBefore(E, lvl)
  }

  /** State while level L is being collected into `level`: lvl0 is the map before,
      P the processed nodes so far. */
  ghost predicate Partial(E: EdgeMap, parents: map<string, int>, lvl0: map<string, nat>,
                          lvl: map<string, nat>, level: seq<string>, L: nat, P: set<string>) {
    && (forall x :: x in lvl0 ==> lvl0[x] < L)
    && (forall x :: x in lvl0 ==> x in lvl && lvl[x] == lvl0[x])
    && (forall x :: x in lvl ==> x in lvl0 || x in level)
    && (forall x :: x in level ==> x in lvl && lvl[x] == L)
    && Distinct(level)
    && P <= E.Keys
    && (forall x :: x in P ==> x in lvl0 && lvl0[x] < L)
    && Counts(E, parents, P)
    && Settled(parents, lvl)
    && ParentsEarlier(E, lvl)
    && ParentJustBefore(E, lvl)
  }

  /** State inside the successor loop of node v: the successors in `done` have been
      decremented already. */
  ghost predicate ChildInv(E: EdgeMap, P: set<string>, done: seq<string>, keys: set<string>,
                           parents: map<string, int>, lvl0: map<string, nat>, lvl: map<string, nat>,
                           level: seq<string>, L: nat, count: nat) {
    && parents.Keys == keys && count == |lvl|
    && (forall x :: x in lvl0 ==> x in lvl && lvl[x] == lvl0[x])
    && (forall x :: x in lvl ==> x in lvl0 || x in level)
    && (forall x :: x in level ==> x in lvl && lvl[x] == L)
    && Distinct(level)
    && (forall x {:trigger parents[x]} :: x in parents ==> parents[x] == Remaining(E, P, x) - (if x in done then 1 else 0))
    && Settled(parents, lvl)
    && ParentsEarlier(E, lvl)
    && ParentJustBefore(E, lvl)
  }

  lemma SliceStep(s: seq<string>, k: nat)
    requires k < |s| && Distinct(s)
    ensures s[..k + 1] == s[..k] + [s[k]]
    ensures s[k] !in s[..k]
  {
  }

  /** One successor `child` of v: lines 98-111. */
  method DecrementChild(E: EdgeMap, v: string, k: nat, parents: map<string, int>, level: seq<string>, count: nat,
                        ghost lvl0: map<string, nat>, ghost lvl: map<string, nat>, ghost L: nat, ghost P: set<string>)
    returns (parents': map<string, int>, level': seq<string>, count': nat, ghost lvl': map<string, nat>)
    requires WellFormedEdgeMap(E) && v in E && k < |E[v]| && E[v][k] in parents
    requires v !in P && v in lvl0 && lvl0[v] + 1 == L
    requires forall x :: x in lvl0 ==> lvl0[x] < L
    requires forall x :: x in P ==> x in lvl0 && lvl0[x] < L
    requires ChildInv(E, P, E[v][..k], parents.Keys, parents, lvl0, lvl, level, L, count)
    ensures ChildInv(E, P, E[v][..k + 1], parents.Keys, parents', lvl0, lvl', level', L, count')
  {
    var child := E[v][k];
    SliceStep(E[v], k);
    ChildCount(E, P, v, k, parents, lvl0, lvl, level, L, count);
    var childParents := Get0(parents, child);
    // The source throws 'Something is wrong with this graph' here when
    // childParents <= 0 (line 100); ChildCount shows that cannot happen.
    childParents := childParents - 1;
    parents' := parents[child := childParents];
    if childParents == 0 {
      level' := level + [child];
      count' := count + 1;
      lvl' := lvl[child := L];
      ChildReady(E, P, v, k, parents, lvl0, lvl, level, L, count);
    } else {
      level', count', lvl' := level, count, lvl;
      ChildWaiting(E, P, v, k, parents, lvl0, lvl, level, L, count);
    }
  }

  lemma ChildCount(E: EdgeMap, P: set<string>, v: string, k: nat, parents: map<string, int>,
                   lvl0: map<string, nat>, lvl: map<string, nat>, level: seq<string>, L: nat, count: nat)
    requires WellFormedEdgeMap(E) && v in E && k < |E[v]| && E[v][k] in parents
    requires v !in P
    requires ChildInv(E, P, E[v][..k], parents.Keys, parents, lvl0, lvl, level, L, count)
    ensures parents[E[v][k]] >= 1 && E[v][k] !in lvl
    ensures parents[E[v][k]] - 1 == Remaining(E, P + {v}, E[v][k])
  {
    var child := E[v][k];
    SliceStep(E[v], k);
    RemainingStep(E, P, v, child);
    assert v in Unprocessed(E, P, child);
  }

  lemma ChildReady(E: EdgeMap, P: set<string>, v: string, k: nat, parents: map<string, int>,
                   lvl0: map<string, nat>, lvl: map<string, nat>, level: seq<string>, L: nat, count: nat)
    requires WellFormedEdgeMap(E) && v in E && k < |E[v]| && E[v][k] in parents
    requires v !in P && v in lvl0 && lvl0[v] + 1 == L
    requires forall x :: x in lvl0 ==> lvl0[x] < L
    requires forall x :: x in P ==> x in lvl0 && lvl0[x] < L
    requires ChildInv(E, P, E[v][..k], parents.Keys, parents, lvl0, lvl, level, L, count)
    requires parents[E[v][k]] == 1 && E[v][k] !in lvl
    requires Remaining(E, P + {v}, E[v][k]) == 0
    ensures ChildInv(E, P, E[v][..k + 1], parents.Keys, parents[E[v][k] := 0], lvl0, lvl[E[v][k] := L],
                     level + [E[v][k]], L, count + 1)
  {
    var child := E[v][k];
    SliceStep(E[v], k);
    CountsDecrement(E, P, E[v][..k], parents, child);
    assert Unprocessed(E, P + {v}, child) == {};
    forall u | u in E && child in E[u] ensures u in lvl && lvl[u] < L {
      assert u in P + {v};
    }
    EarlierExtend(E, lvl, child, L);
    JustBeforeExtend(E, lvl, child, L, v);
    DistinctAppend(level, [child]);
  }

  lemma ChildWaiting(E: EdgeMap, P: set<string>, v: string, k: nat, parents: map<string, int>,
                     lvl0: map<string, nat>, lvl: map<string, nat>, level: seq<string>, L: nat, count: nat)
    requires WellFormedEdgeMap(E) && v in E && k < |E[v]| && E[v][k] in parents
    requires ChildInv(E, P, E[v][..k], parents.Keys, parents, lvl0, lvl, level, L, count)
    requires parents[E[v][k]] > 1 && E[v][k] !in lvl
    ensures ChildInv(E, P, E[v][..k + 1], parents.Keys, parents[E[v][k] := parents[E[v][k]] - 1], lvl0, lvl,
                     level, L, count)
  {
    SliceStep(E[v], k);
    CountsDecrement(E, P, E[v][..k], parents, E[v][k]);
  }

  lemma CountsDecrement(E: EdgeMap, P: set<string>, done: seq<string>, parents: map<string, int>, child: string)
    requires child in parents && child !in done
    requires forall x {:trigger parents[x]} :: x in parents ==> parents[x] == Remaining(E, P, x) - (if x in done then 1 else 0)
    ensures forall x {:trigger parents[child := parents[child] - 1][x]} :: x in parents[child := parents[child] - 1] ==>
              parents[child := parents[child] - 1][x] == Remaining(E, P, x) - (if x in done + [child] then 1 else 0)
  {
    var p' := parents[child := parents[child] - 1];
    forall x | x in p' ensures p'[x] == Remaining(E, P, x) - (if x in done + [child] then 1 else 0) {
      assert x in done + [child] <==> x in done || x == child;
      if x != child {
        assert p'[x] == parents[x];
      }
    }
  }

  lemma EarlierExtend(E: EdgeMap, lvl: map<string, nat>, child: string, L: nat)
    requires ParentsEarlier(E, lvl) && child !in lvl
    requires forall u :: u in E && child in E[u] ==> u in lvl && lvl[u] < L
    ensures ParentsEarlier(E, lvl[child := L])
  {
  }

  lemma JustBeforeExtend(E: EdgeMap, lvl: map<string, nat>, child: string, L: nat, v: string)
    requires ParentJustBefore(E, lvl) && child !in lvl
    requires L > 0 ==> v in lvl && lvl[v] == L - 1 && v in E && child in E[v]
    ensures ParentJustBefore(E, lvl[child := L])
  {
    var lvl' := lvl[child := L];
    forall x | x in lvl' && lvl'[x] > 0
      ensures exists u :: u in lvl' && lvl'[u] == lvl'[x] - 1 && u in E && x in E[u]
    {
      if x != child {
        assert LevelOf(lvl, x) == lvl[x];
        var u :| u in lvl && lvl[u] == lvl[x] - 1 && u in E && x in E[u];
        assert u in lvl' && lvl'[u] == lvl[u];
      } else {
        assert v in lvl' && lvl'[v] == lvl[v];
      }
    }
  }

  /** Decrementing the parent count of every successor of v (lines 97-112). */
  method VisitNode(E: EdgeMap, v: string, parents: map<string, int>, level: seq<string>, count: nat,
                   ghost lvl0: map<string, nat>, ghost lvl: map<string, nat>, ghost L: nat, ghost P: set<string>)
    returns (parents': map<string, int>, level': seq<string>, count': nat, ghost lvl': map<string, nat>)
    requires WellFormedEdgeMap(E)
    requires forall u, c :: u in E && c in E[u] ==> c in parents
    requires Partial(E, parents, lvl0, lvl, level, L, P) && count == |lvl|
    requires v in E && v !in P && v in lvl0 && lvl0[v] + 1 == L
    ensures Partial(E, parents', lvl0, lvl', level', L, P + {v}) && count' == |lvl'|
    ensures parents'.Keys == parents.Keys
  {
    parents', level', count', lvl' := parents, level, count, lvl;
    var children := E[v];
    assert children[..0] == [];
    for k := 0 to |children|
      invariant ChildInv(E, P, children[..k], parents.Keys, parents', lvl0, lvl', level', L, count')
    {
      parents', level', count', lvl' := DecrementChild(E, v, k, parents', level', count', lvl0, lvl', L, P);
    }
    assert children[..|children|] == children;
    forall x | x in parents' ensures parents'[x] == Remaining(E, P + {v}, x) {
      RemainingStep(E, P, v, x);
    }
  }

  /** One pass of the level loop over `tovisit` (lines 96-113): every node of
      tovisit is processed, or the pass stops at the first one with no entry in E,
      where iterating `E.get(v)` throws a TypeError. */
  method VisitLevel(E: EdgeMap, tovisit: seq<string>, parents: map<string, int>, count: nat,
                    ghost lvl0: map<string, nat>, ghost processed: set<string>, ghost L: nat)
    returns (failed: bool, parents': map<string, int>, level: seq<string>, count': nat, ghost lvl': map<string, nat>)
    requires WellFormedEdgeMap(E)
    requires forall u, c :: u in E && c in E[u] ==> c in parents
    requires L >= 1 && Distinct(tovisit)
    requires forall x :: x in tovisit ==> x in lvl0 && lvl0[x] == L - 1
    requires processed <= E.Keys && forall x :: x in processed ==> x in lvl0 && lvl0[x] < L - 1
    requires Partial(E, parents, lvl0, lvl0, [], L, processed) && count == |lvl0|
    ensures failed <==> exists x :: x in tovisit && x !in E
    ensures !failed ==> Partial(E, parents', lvl0, lvl', level, L, processed + Members(tovisit))
    ensures !failed ==> count' == |lvl'| && parents'.Keys == parents.Keys
  {
    parents', level, count', lvl' := parents, [], count, lvl0;
    ghost var P := processed;
    for i := 0 to |tovisit|
      invariant forall x :: x in P <==> x in processed || x in tovisit[..i]
      invariant forall j :: 0 <= j < i ==> tovisit[j] in E
      invariant Partial(E, parents', lvl0, lvl', level, L, P) && count' == |lvl'|
      invariant parents'.Keys == parents.Keys
    {
      var v := tovisit[i];
      if v !in E {
        return true, parents', level, count', lvl';
      }
      SliceStep(tovisit, i);
      parents', level, count', lvl' := VisitNode(E, v, parents', level, count', lvl0, lvl', L, P);
      P := P + {v};
    }
    assert tovisit[..|tovisit|] == tovisit;
    assert P == processed + Members(tovisit);
    failed := false;
  }

  /** At the start of an iteration, the nodes to visit are those of the last level,
      and no node of the level being collected has been found yet. */
  lemma StartLevel(E: EdgeMap, parents: map<string, int>, levels: seq<seq<string>>,
                   lvl: map<string, nat>, processed: set<string>)
    requires Frontier(E, parents, levels, lvl, processed)
    ensures forall x :: x in levels[|levels| - 1] ==> x in lvl && lvl[x] == |levels| - 1
    ensures forall x :: x in processed ==> x in lvl && lvl[x] < |levels| - 1
    ensures Partial(E, parents, lvl, lvl, [], |levels|, processed)
  {
  }

  lemma LevelGrows(parents: map<string, int>, parents': map<string, int>, lvl: map<string, nat>,
                   lvl': map<string, nat>, level: seq<string>, L: nat)
    requires forall x :: x in lvl ==> x in lvl' && lvl'[x] == lvl[x] && lvl[x] < L
    requires forall x :: x in level ==> x in lvl' && lvl'[x] == L
    requires Settled(parents', lvl') && parents'.Keys == parents.Keys
    ensures lvl.Keys <= lvl'.Keys <= parents.Keys
    ensures level != [] ==> lvl.Keys < lvl'.Keys
  {
    if level != [] {
      var x := level[0];
      assert x in level && lvl'[x] == L;
      assert x in lvl'.Keys - lvl.Keys;
    }
  }

  /** One iteration of the level loop (lines 93-116): collect the next level from
      tovisit, the last level so far. */
  /** The loop state shared between iterations: some assignment of levels to the
      reached nodes and some set of processed nodes satisfy Frontier, and `count` is the
      number of reached nodes. */
  ghost predicate Reached(E: EdgeMap, parents: map<string, int>, levels: seq<seq<string>>, count: nat) {
    exists lvl: map<string, nat>, processed: set<string> :: Frontier(E, parents, levels, lvl, processed) && count == |lvl|
  }

  lemma CardSubset(A: set<string>, B: set<string>)
    requires A <= B
    ensures |A| <= |B|
    ensures A < B ==> |A| < |B|
  {
    assert B == A + (B - A);
    if A < B {
      var d := B - A;
      assert d != {} by {
        assert A + d == B;
      }
    }
  }

  /** The invariant of the level loop. */
  ghost predicate LoopInv(E: EdgeMap, parents0: map<string, int>, roots: seq<string>,
                          parents: map<string, int>, levels: seq<seq<string>>, tovisit: seq<string>, count: nat) {
    && Reached(E, parents, levels, count)
    && |levels| >= 1 && levels[0] == roots
    && parents.Keys == parents0.Keys && tovisit == levels[|levels| - 1] && count <= |parents0.Keys|
    && (forall u, c :: u in E && c in E[u] ==> c in parents)
  }

  method NextLevel(E: EdgeMap, ghost parents0: map<string, int>, ghost roots: seq<string>,
                   tovisit: seq<string>, parents: map<string, int>, count: nat, levels: seq<seq<string>>)
    returns (failed: bool, parents': map<string, int>, levels': seq<seq<string>>, level: seq<string>, count': nat)
    requires WellFormedEdgeMap(E)
    requires LoopInv(E, parents0, roots, parents, levels, tovisit, count) && tovisit != []
    ensures failed ==> exists x :: x in parents0 && x !in E
    ensures !failed ==> LoopInv(E, parents0, roots, parents', levels', level, count')
    ensures !failed ==> count <= count' <= |parents0.Keys| && (level != [] ==> count < count')
  {
    ghost var lvl: map<string, nat>, processed: set<string> :| Frontier(E, parents, levels, lvl, processed) && count == |lvl|;
    ghost var lvl', processed';
    failed, parents', level, count', lvl', processed' := Advance(E, tovisit, parents, count, levels, lvl, processed);
    levels' := levels + [level];
    if !failed {
      assert Reached(E, parents', levels', count');
    } else {
      ghost var x :| x in tovisit && x !in E;
      LastLevelCounted(parents, levels, lvl, x);
    }
  }

  /** Every node of the last level has a parent count. */
  lemma LastLevelCounted(parents: map<string, int>, levels: seq<seq<string>>, lvl: map<string, nat>, x: string)
    requires |levels| >= 1 && LevelsMatch(levels, lvl) && Settled(parents, lvl)
    requires x in levels[|levels| - 1]
    ensures x in parents
  {
    assert x in lvl;
  }

  /** The body of NextLevel, on the unpacked loop state. */
  method Advance(E: EdgeMap, tovisit: seq<string>, parents: map<string, int>, count: nat, ghost levels: seq<seq<string>>,
                 ghost lvl: map<string, nat>, ghost processed: set<string>)
    returns (failed: bool, parents': map<string, int>, level: seq<string>, count': nat,
             ghost lvl': map<string, nat>, ghost processed': set<string>)
    requires WellFormedEdgeMap(E)
    requires forall u, c :: u in E && c in E[u] ==> c in parents
    requires Frontier(E, parents, levels, lvl, processed) && count == |lvl|
    requires tovisit == levels[|levels| - 1] != []
    ensures failed <==> exists x :: x in tovisit && x !in E
    ensures !failed ==> Frontier(E, parents', levels + [level], lvl', processed') && count' == |lvl'|
    ensures !failed ==> parents'.Keys == parents.Keys
    ensures !failed ==> count <= count' <= |parents.Keys| && (level != [] ==> count < count')
  {
    ghost var L := |levels|;
    StartLevel(E, parents, levels, lvl, processed);
    failed, parents', level, count', lvl' := VisitLevel(E, tovisit, parents, count, lvl, processed, L);
    processed' := processed + Members(tovisit);
    if !failed {
      FrontierStep(E, parents, parents', levels, lvl, processed, level, lvl');
      LevelGrows(parents, parents', lvl, lvl', level, L);
      CardSubset(lvl.Keys, lvl'.Keys);
      CardSubset(lvl'.Keys, parents.Keys);
    }
  }

  /** The state before the level loop: level 0 holds the roots, nothing is processed. */
  lemma InitialFrontier(E: EdgeMap, parents: map<string, int>, roots: seq<string>, lvl: map<string, nat>)
    requires Distinct(roots)
    requires forall x :: x in lvl <==> x in roots
    requires forall x :: x in lvl ==> lvl[x] == 0
    requires forall x :: x in roots ==> x in parents && !HasParent(E, x)
    requires forall x :: x in parents && !HasParent(E, x) ==> x in roots
    requires forall x :: x in parents ==> parents[x] == |Parents(E, x)|
    ensures Frontier(E, parents, [roots], lvl, {})
    ensures |lvl| == |roots|
  {
    forall x | x in parents ensures parents[x] == Remaining(E, {}, x) && (parents[x] == 0 <==> !HasParent(E, x)) {
      assert Unprocessed(E, {}, x) == Parents(E, x);
      if HasParent(E, x) {
        var u :| u in E && x in E[u];
        assert u in Parents(E, x);
      }
    }
    DistinctCard(roots);
    assert lvl.Keys == set x | x in roots;
  }

  /** Appending the level just collected keeps the loop invariant. */
  lemma FrontierStep(E: EdgeMap, parents: map<string, int>, parents': map<string, int>,
                     levels: seq<seq<string>>, lvl: map<string, nat>, processed: set<string>,
                     level: seq<string>, lvl': map<string, nat>)
    requires Frontier(E, parents, levels, lvl, processed)
    requires levels[|levels| - 1] != []
    requires forall x :: x in levels[|levels| - 1] ==> x in E
    requires Partial(E, parents', lvl, lvl', level, |levels|, processed + Members(levels[|levels| - 1]))
    ensures Frontier(E, parents', levels + [level], lvl', processed + Members(levels[|levels| - 1]))
  {
    LevelsMatchStep(levels, lvl, level, lvl');
    ProcessedStep(levels, lvl, processed, level, lvl');
    ShapeStep(levels, level);
  }

  lemma ProcessedStep(levels: seq<seq<string>>, lvl: map<string, nat>, processed: set<string>,
                      level: seq<string>, lvl': map<string, nat>)
    requires |levels| >= 1 && LevelsMatch(levels, lvl)
    requires forall x :: x in processed <==> x in lvl && lvl[x] < |levels| - 1
    requires forall x :: x in lvl ==> x in lvl' && lvl'[x] == lvl[x]
    requires forall x :: x in lvl' ==> x in lvl || x in level
    requires forall x :: x in level ==> x in lvl' && lvl'[x] == |levels|
    ensures forall x :: x in processed + Members(levels[|levels| - 1]) <==> x in lvl' && lvl'[x] < |levels + [level]| - 1
  {
    var L := |levels|;
    forall x ensures x in processed + Members(levels[L - 1]) <==> x in lvl' && lvl'[x] < L {
      if x in levels[L - 1] {
        assert lvl[x] == L - 1;
      }
      if x in lvl && lvl[x] == L - 1 {
        assert x in levels[L - 1];
      }
    }
  }

  lemma ShapeStep(levels: seq<seq<string>>, level: seq<string>)
    requires |levels| >= 1 && levels[|levels| - 1] != []
    requires forall k :: 0 <= k < |levels| - 1 ==> levels[k] != []
    ensures forall k :: 0 <= k < |levels + [level]| - 1 ==> (levels + [level])[k] != []
  {
    assert forall k :: 0 <= k < |levels| ==> (levels + [level])[k] == levels[k];
  }

  lemma LevelsMatchStep(levels: seq<seq<string>>, lvl: map<string, nat>, level: seq<string>, lvl': map<string, nat>)
    requires LevelsMatch(levels, lvl)
    requires forall x :: x in lvl ==> x in lvl' && lvl'[x] == lvl[x]
    requires forall x :: x in lvl' ==> x in lvl || x in level
    requires forall x :: x in level ==> x in lvl' && lvl'[x] == |levels|
    ensures LevelsMatch(levels + [level], lvl')
  {
    var levels' := levels + [level];
    forall k, x | 0 <= k < |levels'| && x in levels'[k] ensures x in lvl' && lvl'[x] == k {
      if k < |levels| {
        assert levels'[k] == levels[k];
      }
    }
    forall x | x in lvl' ensures lvl'[x] < |levels'| && x in levels'[lvl'[x]] {
      if x in lvl {
        assert levels'[lvl[x]] == levels[lvl[x]];
      }
    }
  }

  /** Concatenating levels that partition the domain of lvl gives each node of lvl once. */
  lemma {:induction false} FlattenFacts(levels: seq<seq<string>>, lvl: map<string, nat>, n: nat)
    requires n <= |levels|
    requires forall k :: 0 <= k < |levels| ==> Distinct(levels[k])
    requires forall k, x :: 0 <= k < |levels| && x in levels[k] ==> x in lvl && lvl[x] == k
    ensures Distinct(Flatten(levels[..n]))
    ensures forall x :: x in Flatten(levels[..n]) <==> x in lvl && lvl[x] < n && x in levels[lvl[x]]
  {
    if n > 0 {
      FlattenFacts(levels, lvl, n - 1);
      assert levels[..n][..n - 1] == levels[..n - 1];
      var prefix := Flatten(levels[..n - 1]);
      assert Flatten(levels[..n]) == prefix + levels[n - 1];
      forall x | x in prefix ensures x !in levels[n - 1] {
        assert lvl[x] < n - 1;
      }
      DistinctAppend(prefix, levels[n - 1]);
    }
  }

  /** Read off the loop invariant at exit (tovisit empty): the shape of a level order. */
  lemma FinalShape(E: EdgeMap, parents: map<string, int>,
                   levels: seq<seq<string>>, lvl: map<string, nat>, processed: set<string>)
    requires Frontier(E, parents, levels, lvl, processed) && levels[|levels| - 1] == []
    ensures LevelShape(E, levels)
    ensures processed == lvl.Keys
  {
    ShapeOnce(levels, lvl);
    ShapeEdges(E, levels, lvl);
    ShapeJustBefore(E, levels, lvl);
    AllProcessed(levels, lvl, processed);
  }

  lemma ShapeOnce(levels: seq<seq<string>>, lvl: map<string, nat>)
    requires LevelsMatch(levels, lvl)
    ensures forall k1, k2, x :: 0 <= k1 < |levels| && 0 <= k2 < |levels| && x in levels[k1] && x in levels[k2] ==> k1 == k2
  {
    forall k1, k2, x | 0 <= k1 < |levels| && 0 <= k2 < |levels| && x in levels[k1] && x in levels[k2]
      ensures k1 == k2
    {
      assert lvl[x] == k1 && lvl[x] == k2;
    }
  }

  lemma ShapeEdges(E: EdgeMap, levels: seq<seq<string>>, lvl: map<string, nat>)
    requires LevelsMatch(levels, lvl) && ParentsEarlier(E, lvl)
    ensures EdgesForward(E, levels)
  {
    forall k1, k2, u, v | 0 <= k1 < |levels| && 0 <= k2 < |levels| && u in levels[k1] && v in levels[k2] && u in E && v in E[u]
      ensures k1 < k2
    {
      assert lvl[u] == k1 && lvl[v] == k2;
    }
  }

  lemma ShapeJustBefore(E: EdgeMap, levels: seq<seq<string>>, lvl: map<string, nat>)
    requires LevelsMatch(levels, lvl) && ParentJustBefore(E, lvl)
    ensures forall k, x {:trigger x in levels[k]} :: 0 < k < |levels| && x in levels[k] ==> exists u :: u in levels[k - 1] && u in E && x in E[u]
  {
    forall k, x {:trigger x in levels[k]} | 0 < k < |levels| && x in levels[k]
      ensures exists u :: u in levels[k - 1] && u in E && x in E[u]
    {
      assert LevelOf(lvl, x) == k;
      var u :| u in lvl && lvl[u] == lvl[x] - 1 && u in E && x in E[u];
      assert u in levels[k - 1];
    }
  }

  lemma AllProcessed(levels: seq<seq<string>>, lvl: map<string, nat>, processed: set<string>)
    requires LevelsMatch(levels, lvl) && |levels| >= 1 && levels[|levels| - 1] == []
    requires forall x :: x in processed <==> x in lvl && lvl[x] < |levels| - 1
    ensures processed == lvl.Keys
  {
    forall x | x in lvl ensures x in processed {
      assert x in levels[lvl[x]];
    }
  }

  /** The concatenated levels hold the nodes of lvl, once each. */
  lemma FinalFlatten(levels: seq<seq<string>>, lvl: map<string, nat>)
    requires LevelsMatch(levels, lvl)
    requires forall k :: 0 <= k < |levels| ==> Distinct(levels[k])
    ensures Distinct(Flatten(levels))
    ensures forall x :: x in Flatten(levels) <==> x in lvl
    ensures |Flatten(levels)| == |lvl|
  {
    FlattenFacts(levels, lvl, |levels|);
    assert levels[..|levels|] == levels;
    var flat := Flatten(levels);
    DistinctCard(flat);
    assert (set x | x in flat) == lvl.Keys;
  }

  /** When every edge joins nodes of V, the nodes reached are exactly V once there are |V| of them. */
  lemma ReachedAll(V: seq<string>, E: EdgeMap, keys: set<string>, lvl: map<string, nat>)
    requires Distinct(V) && Closed(V, E)
    requires forall x :: x in keys <==> x in V || HasParent(E, x)
    requires lvl.Keys <= keys && |lvl| == |V|
    ensures forall x :: x in lvl <==> x in V
  {
    var vs := set x | x in V;
    DistinctCard(V);
    assert lvl.Keys <= vs;
    assert |vs - lvl.Keys| == |vs| - |lvl.Keys|;
    assert vs - lvl.Keys == {};
    assert lvl.Keys == vs;
  }

  /** In an acyclic graph whose edges join nodes of V, the loop reaches every node of
      V: an unreached node always has an unprocessed, hence unreached, parent. */
  lemma AcyclicReachesAll(V: seq<string>, E: EdgeMap, parents: map<string, int>, lvl: map<string, nat>)
    requires Closed(V, E) && Acyclic(E)
    requires forall x :: x in V ==> x in parents
    requires Counts(E, parents, lvl.Keys) && Settled(parents, lvl)
    ensures forall x :: x in V ==> x in lvl
  {
    var rank: string -> nat :| Ranked(E, rank);
    var bad := (set x | x in V) - lvl.Keys;
    forall y | y in bad ensures exists u :: u in bad && u in E && y in E[u] {
      assert parents[y] != 0;
      var u :| u in Unprocessed(E, lvl.Keys, y);
      assert u in V;
    }
    forall x | x in V ensures x in lvl {
      NoDescent(E, rank, bad, x);
    }
  }

  /** In an acyclic graph whose edges join nodes of V, a non-empty V has a root. */
  lemma AcyclicHasRoot(V: seq<string>, E: EdgeMap)
    requires Closed(V, E) && Acyclic(E) && V != []
    ensures Roots(V, E) != []
  {
    var rank: string -> nat :| Ranked(E, rank);
    if Roots(V, E) == [] {
      var bad := set x | x in V;
      forall y | y in bad ensures exists u :: u in bad && u in E && y in E[u] {
        assert y !in Roots(V, E);
      }
      NoDescent(E, rank, bad, V[0]);
    }
  }

  /** Levels that strictly increase along every edge rank the graph. */
  lemma LevelsRank(E: EdgeMap, lvl: map<string, nat>)
    requires forall u, v :: u in E && v in E[u] ==> u in lvl && v in lvl && lvl[u] < lvl[v]
    ensures Acyclic(E)
  {
    var rank := (x: string) => if x in lvl then lvl[x] else 0;
    assert Ranked(E, rank);
  }

  /** The loop state before the first iteration. */
  lemma StartLoop(V: seq<string>, E: EdgeMap, parents: map<string, int>, roots: seq<string>)
    requires Distinct(V) && WellFormedEdgeMap(E)
    requires forall x :: x in parents <==> x in V || HasParent(E, x)
    requires forall x :: x in parents ==> parents[x] == |Parents(E, x)|
    requires roots == Roots(V, E) != []
    ensures LoopInv(E, parents, roots, parents, [roots], roots, |roots|) && |roots| <= |parents.Keys|
  {
    var lvl0: map<string, nat> := map x | x in roots :: 0;
    RootsParentless(V, E, parents, roots);
    InitialFrontier(E, parents, roots, lvl0);
    CardSubset(lvl0.Keys, parents.Keys);
    assert Reached(E, parents, [roots], |roots|);
  }

  /** What the loop invariant gives at exit. */
  lemma Conclude(V: seq<string>, E: EdgeMap, parents0: map<string, int>, roots: seq<string>, parents: map<string, int>,
                 levels: seq<seq<string>>, count: nat)
    requires Distinct(V)
    requires forall x :: x in parents0 <==> x in V || HasParent(E, x)
    requires LoopInv(E, parents0, roots, parents, levels, [], count)
    ensures |levels| >= 1 && levels[0] == roots
    ensures LevelShape(E, levels) && Distinct(Flatten(levels)) && |Flatten(levels)| == count
    ensures Closed(V, E) && Acyclic(E) ==> count == |V|
    ensures Closed(V, E) && count == |V| ==> (forall x :: x in Flatten(levels) <==> x in V) && Acyclic(E)
  {
    var keys := parents0.Keys;
    var lvl: map<string, nat>, processed: set<string> :| Frontier(E, parents, levels, lvl, processed) && count == |lvl|;
    FinalShape(E, parents, levels, lvl, processed);
    FinalFlatten(levels, lvl);
    if Closed(V, E) && Acyclic(E) {
      AcyclicReachesAll(V, E, parents, lvl);
      forall x | x in lvl ensures x in V {
        assert x in keys;
      }
      ReachedAll2(V, lvl);
    }
    if Closed(V, E) && |lvl| == |V| {
      ReachedAll(V, E, keys, lvl);
      assert ParentsEarlier(E, lvl);
      forall u, v | u in E && v in E[u] ensures u in lvl && v in lvl && lvl[u] < lvl[v] {
        assert u in V && v in V;
      }
      LevelsRank(E, lvl);
    }
  }

  lemma ReachedAll2(V: seq<string>, lvl: map<string, nat>)
    requires Distinct(V) && forall x :: x in V <==> x in lvl
    ensures |lvl| == |V|
  {
    DistinctCard(V);
    assert (set x | x in V) == lvl.Keys;
  }

  /** The roots are the parentless nodes among the keys of the parent count. */
  lemma RootsParentless(V: seq<string>, E: EdgeMap, parents: map<string, int>, roots: seq<string>)
    requires forall v :: v in roots <==> v in V && !HasParent(E, v)
    requires forall x :: x in parents <==> x in V || HasParent(E, x)
    ensures forall x :: x in roots ==> x in parents && !HasParent(E, x)
    ensures forall x :: x in parents && !HasParent(E, x) ==> x in roots
  {
  }

  /** A node that has no entry in E is a node of V without one, or the target of an
      edge without one. */
  lemma UnreachedNode(V: seq<string>, E: EdgeMap, keys: set<string>, x: string)
    requires forall x :: x in keys <==> x in V || HasParent(E, x)
    requires x in keys && x !in E
    ensures !((forall v :: v in V ==> v in E) && (forall u, v :: u in E && v in E[u] ==> v in E))
  {
  }

  /** The level loop of computeLevelOrder (lines 93-117), from level 0 until a level
      comes out empty. */
  method LevelLoop(E: EdgeMap, roots: seq<string>, parents0: map<string, int>)
    returns (failed: bool, parents: map<string, int>, levels: seq<seq<string>>, count: nat)
    requires WellFormedEdgeMap(E)
    requires LoopInv(E, parents0, roots, parents0, [roots], roots, |roots|) && |roots| <= |parents0.Keys|
    ensures failed ==> exists x :: x in parents0 && x !in E
    ensures !failed ==> LoopInv(E, parents0, roots, parents, levels, [], count)
  {
    var tovisit := roots;
    levels := [roots];
    count := |roots|;
    parents := parents0;
    while tovisit != []
      invariant LoopInv(E, parents0, roots, parents, levels, tovisit, count) && count <= |parents0.Keys|
      decreases |parents0.Keys| - count, |tovisit|
    {
      var f, p, l, level, c := NextLevel(E, parents0, roots, tovisit, parents, count, levels);
      if f {
        return true, parents, levels, count;
      }
      parents, levels, tovisit, count := p, l, level, c;
    }
    failed := false;
  }

  /** computeLevelOrder (lines 72-124). Fails with 'Graph has no roots!' exactly when
      no node of V is without a parent; otherwise, when it succeeds, the levels form a
      level order holding each reached node once and |V| nodes in all. For a graph
      whose edges join nodes of V it succeeds exactly on the acyclic graphs with a
      non-empty V. */
  method ComputeLevelOrder(V: seq<string>, E: EdgeMap) returns (r: Result<seq<seq<string>>>)
    requires Distinct(V) && WellFormedEdgeMap(E)
    ensures r == Err(NoRoots) <==> Roots(V, E) == []
    ensures r.Err? ==> r.error in {NoRoots, BadGraph, TypeError}
    ensures r.Ok? ==> IsLevelOrder(V, E, r.value) && Distinct(Flatten(r.value)) && |Flatten(r.value)| == |V|
    ensures r.Ok? && Closed(V, E) ==> (forall x :: x in Flatten(r.value) <==> x in V) && Acyclic(E)
    ensures (forall v :: v in V ==> v in E) && (forall u, v :: u in E && v in E[u] ==> v in E) ==> r != Err(TypeError)
    ensures Closed(V, E) && Acyclic(E) && V != [] && (forall v :: v in V ==> v in E) ==> r.Ok?
  {
    var roots := ComputeRoots(V, E);
    if roots == [] {
      if Closed(V, E) && Acyclic(E) && V != [] {
        AcyclicHasRoot(V, E);
      }
      return Err(NoRoots);
    }
    var parents := CountParents(V, E);
    StartLoop(V, E, parents, roots);
    var failed, parents', levels, count := LevelLoop(E, roots, parents);
    if failed {
      ghost var x :| x in parents && x !in E;
      UnreachedNode(V, E, parents.Keys, x);
      return Err(TypeError);
    }
    Conclude(V, E, parents, roots, parents', levels, count);
    if count != |V| {
      return Err(BadGraph);
    }
    return Ok(levels);
  }

  /** The block of the concatenation that position i falls in. */
  lemma {:induction false} FlattenBlock(levels: seq<seq<string>>, i: nat) returns (k: nat)
    requires i < |Flatten(levels)|
    ensures k < |levels| && Flatten(levels)[i] in levels[k]
    ensures |Flatten(levels[..k])| <= i < |Flatten(levels[..k + 1])|
  {
    var n := |levels|;
    var init := levels[..n - 1];
    assert levels[..n] == levels;
    if i < |Flatten(init)| {
      k := FlattenBlock(init, i);
      assert init[..k] == levels[..k] && init[..k + 1] == levels[..k + 1];
    } else {
      k := n - 1;
    }
  }

  /** A longer prefix of the levels concatenates to a longer sequence. */
  lemma {:induction false} FlattenPrefixLen(levels: seq<seq<string>>, k: nat, k': nat)
    requires k <= k' <= |levels|
    ensures |Flatten(levels[..k])| <= |Flatten(levels[..k'])|
    decreases k' - k
  {
    if k < k' {
      FlattenPrefixLen(levels, k, k' - 1);
      assert levels[..k'][..k' - 1] == levels[..k' - 1];
    }
  }

  /** Concatenating levels whose edges go forward gives a topological order: the
      source of every edge comes before its target. */
  lemma FlattenTopological(E: EdgeMap, levels: seq<seq<string>>)
    requires EdgesForward(E, levels)
    ensures forall i, j :: 0 <= i < |Flatten(levels)| && 0 <= j < |Flatten(levels)| && Flatten(levels)[i] in E && Flatten(levels)[j] in E[Flatten(levels)[i]] ==> i < j
  {
    var F := Flatten(levels);
    forall i, j | 0 <= i < |F| && 0 <= j < |F| && F[i] in E && F[j] in E[F[i]]
      ensures i < j
    {
      var k1 := FlattenBlock(levels, i);
      var k2 := FlattenBlock(levels, j);
      FlattenPrefixLen(levels, k1 + 1, k2);
    }
  }
}
