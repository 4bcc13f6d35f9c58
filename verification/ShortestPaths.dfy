/**
 * What a Dijkstra search keeps while it runs, stated over any finite set of weighted arcs, and
 * why the tree it leaves is one of shortest paths.  Both searches of the repository use it.
 */
module ShortestPaths {
  import opened FibonacciForest

  /** `id` tells parallel arcs apart. */
  datatype Arc = Arc(from: int, to: int, cost: int, id: int)

  /** `p` is a walk over `arcs` from `s` to `t`. */
  ghost predicate IsWalk(arcs: set<Arc>, s: int, p: seq<Arc>, t: int) {
    if p == [] then s == t
    else var a := p[|p| - 1]; a in arcs && a.to == t && IsWalk(arcs, s, p[..|p| - 1], a.from)
  }

  ghost function Cost(p: seq<Arc>): int {
    if p == [] then 0 else Cost(p[..|p| - 1]) + p[|p| - 1].cost
  }

  ghost function NodesOf(s: int, p: seq<Arc>): (r: seq<int>)
    ensures |r| == |p| + 1 && r[0] == s
  {
    if p == [] then [s] else NodesOf(s, p[..|p| - 1]) + [p[|p| - 1].to]
  }

  ghost predicate Simple(s: int, p: seq<Arc>) {
    NoDup(NodesOf(s, p))
  }

  ghost predicate Reachable(arcs: set<Arc>, s: int, t: int) {
    exists p :: IsWalk(arcs, s, p, t)
  }

  lemma Extend(arcs: set<Arc>, s: int, p: seq<Arc>, a: Arc)
    requires IsWalk(arcs, s, p, a.from) && a in arcs
    ensures IsWalk(arcs, s, p + [a], a.to) && Cost(p + [a]) == Cost(p) + a.cost
    ensures NodesOf(s, p + [a]) == NodesOf(s, p) + [a.to]
  {
    assert (p + [a])[..|p|] == p;
  }

  lemma {:induction false} NodesAt(arcs: set<Arc>, s: int, p: seq<Arc>, t: int, i: nat)
    requires IsWalk(arcs, s, p, t) && i < |p|
    ensures NodesOf(s, p)[|p|] == t
    ensures p[i] in arcs && NodesOf(s, p)[i] == p[i].from && NodesOf(s, p)[i + 1] == p[i].to
  {
    var p' := p[..|p| - 1];
    if p' == [] {
      assert NodesOf(s, p') == [s];
    } else {
      NodesAt(arcs, s, p', p[|p| - 1].from, if i < |p'| then i else 0);
    }
  }

  /** No walk from `s` to `t` is cheaper than `p`. */
  ghost predicate Shortest(arcs: set<Arc>, s: int, p: seq<Arc>, t: int) {
    IsWalk(arcs, s, p, t) && forall q :: IsWalk(arcs, s, q, t) ==> Cost(p) <= Cost(q)
  }

  /** No walk costs more than its length times the cost of the dearest arc. */
  lemma {:induction false} CostBounded(arcs: set<Arc>, s: int, p: seq<Arc>, t: int, most: nat)
    requires IsWalk(arcs, s, p, t) && forall a :: a in arcs ==> a.cost <= most
    ensures Cost(p) <= most * |p|
  {
    if p == [] {
    } else {
      CostBounded(arcs, s, p[..|p| - 1], p[|p| - 1].from, most);
      assert most * |p| == most * (|p| - 1) + most;
    }
  }

  /** A simple walk within `n` nodes has fewer than `n` arcs. */
  lemma SimpleShort(arcs: set<Arc>, s: int, p: seq<Arc>, t: int, n: int)
    requires IsWalk(arcs, s, p, t) && Simple(s, p) && 0 <= s < n && forall a :: a in arcs ==> 0 <= a.to < n
    ensures |p| < n
  {
    var nodes := NodesOf(s, p);
    forall i | 0 <= i < |nodes| ensures 0 <= nodes[i] < n {
      if i > 0 {
        NodesAt(arcs, s, p, t, i - 1);
      }
    }
    NoDupShort(nodes, n);
  }

  lemma {:induction false} NoDupShort(nodes: seq<int>, n: nat)
    requires NoDup(nodes) && forall i :: 0 <= i < |nodes| ==> 0 <= nodes[i] < n
    ensures |nodes| <= n
  {
    if nodes == [] {
      return;
    }
    assert 0 <= nodes[0] < n;
    if n - 1 in nodes {
      var rest := Without(nodes, n - 1);
      assert forall x :: x in rest ==> x in nodes && x != n - 1;
      assert forall i :: 0 <= i < |rest| ==> rest[i] in rest;
      NoDupShort(rest, n - 1);
    } else {
      assert forall i :: 0 <= i < |nodes| ==> nodes[i] in nodes;
      NoDupShort(nodes, n - 1);
    }
  }

  // ------------------------------------------------------------ the search invariant

  ghost predicate Costs(arcs: set<Arc>) {
    forall a :: a in arcs ==> a.cost >= 0
  }

  /** `paths` holds a simple walk for every node reached so far; inner nodes are done. */
  ghost predicate Walks(arcs: set<Arc>, s: int, paths: map<int, seq<Arc>>, done: set<int>) {
    && s in paths && paths[s] == []
    && (forall v :: v in paths ==> IsWalk(arcs, s, paths[v], v) && Simple(s, paths[v]))
    && (forall v, x :: v in paths && x in NodesOf(s, paths[v]) ==> x == v || x in done)
  }

  /** The walk to `v` is the one to its last inner node and one arc more. */
  ghost predicate TreeAt(s: int, paths: map<int, seq<Arc>>, done: set<int>, v: int)
    requires v in paths
  {
    v == s ||
    (|paths[v]| > 0 && var a := paths[v][|paths[v]| - 1]; a.to == v && a.from in done && a.from in paths && paths[v] == paths[a.from] + [a])
  }

  ghost predicate Tree(s: int, paths: map<int, seq<Arc>>, done: set<int>) {
    forall v :: v in paths ==> TreeAt(s, paths, done, v)
  }

  ghost predicate RelaxedArc(paths: map<int, seq<Arc>>, a: Arc) {
    a.from in paths ==> a.to in paths && Cost(paths[a.to]) <= Cost(paths[a.from]) + a.cost
  }

  /** Arcs out of done nodes offer no shorter way, but perhaps for the arcs in `pending`. */
  ghost predicate Relaxed(arcs: set<Arc>, paths: map<int, seq<Arc>>, done: set<int>, pending: set<Arc>) {
    forall a :: a in arcs && a.from in done && a !in pending ==> RelaxedArc(paths, a)
  }

  /** Done nodes are no farther than the others; once an unreached node is done, no reached one is left. */
  ghost predicate Monotone(paths: map<int, seq<Arc>>, done: set<int>) {
    && (forall u, v :: u in done && u in paths && v in paths && v !in done ==> Cost(paths[u]) <= Cost(paths[v]))
    && (done <= paths.Keys || paths.Keys <= done)
  }

  ghost predicate Search(arcs: set<Arc>, s: int, paths: map<int, seq<Arc>>, done: set<int>, pending: set<Arc>) {
    Costs(arcs) && Walks(arcs, s, paths, done) && Tree(s, paths, done) && Relaxed(arcs, paths, done, pending) && Monotone(paths, done)
  }

  /** `u` is the node popped last: nothing done is farther. */
  ghost predicate Farthest(paths: map<int, seq<Arc>>, done: set<int>, u: int) {
    u in done && u in paths && forall v :: v in done ==> v in paths && Cost(paths[v]) <= Cost(paths[u])
  }

  lemma SearchStart(arcs: set<Arc>, s: int)
    requires Costs(arcs)
    ensures Search(arcs, s, map[s := []], {}, {})
  {
  }

  /** Popping the nearest of the reached nodes that are not done. */
  lemma SearchPop(arcs: set<Arc>, s: int, paths: map<int, seq<Arc>>, done: set<int>, u: int, pending: set<Arc>)
    requires Search(arcs, s, paths, done, {}) && u in paths && u !in done
    requires forall v :: v in paths && v !in done ==> Cost(paths[u]) <= Cost(paths[v])
    requires forall a :: a in arcs && a.from == u ==> a in pending
    ensures Search(arcs, s, paths, done + {u}, pending) && Farthest(paths, done + {u}, u)
  {
    assert Tree(s, paths, done + {u}) by {
      forall v | v in paths ensures TreeAt(s, paths, done + {u}, v) {
        assert TreeAt(s, paths, done, v);
      }
    }
  }

  /** Popping an unreached node, when every reached one is done. */
  lemma SearchPopUnreached(arcs: set<Arc>, s: int, paths: map<int, seq<Arc>>, done: set<int>, u: int)
    requires Search(arcs, s, paths, done, {}) && u !in paths && paths.Keys <= done
    ensures Search(arcs, s, paths, done + {u}, {})
  {
  }

  /** An arc back to a done node, or one that offers no shorter way. */
  lemma SearchKeep(arcs: set<Arc>, s: int, paths: map<int, seq<Arc>>, done: set<int>, pending: set<Arc>, a: Arc)
    requires Search(arcs, s, paths, done, pending) && Farthest(paths, done, a.from) && a in arcs
    requires a.to in done || (a.to in paths && Cost(paths[a.to]) <= Cost(paths[a.from]) + a.cost)
    ensures Search(arcs, s, paths, done, pending - {a})
  {
    hide Walks, Tree, Monotone;
    assert RelaxedArc(paths, a);
  }

  lemma ImproveWalks(arcs: set<Arc>, s: int, paths: map<int, seq<Arc>>, done: set<int>, a: Arc)
    requires Walks(arcs, s, paths, done) && a.from in paths && a.from in done && a in arcs && a.to !in done && a.to != s
    ensures Walks(arcs, s, paths[a.to := paths[a.from] + [a]], done)
  {
    SimpleStep(arcs, s, paths, done, a);
    Extend(arcs, s, paths[a.from], a);
    hide IsWalk, NodesOf, Cost;
  }

  lemma ImproveTree(s: int, paths: map<int, seq<Arc>>, done: set<int>, a: Arc)
    requires Tree(s, paths, done) && a.from in paths && a.from in done && a.to !in done
    ensures Tree(s, paths[a.to := paths[a.from] + [a]], done)
  {
    var paths' := paths[a.to := paths[a.from] + [a]];
    forall w | w in paths' ensures TreeAt(s, paths', done, w) {
      if w != a.to { assert TreeAt(s, paths, done, w); }
    }
  }

  lemma ImproveRelaxed(arcs: set<Arc>, paths: map<int, seq<Arc>>, done: set<int>, pending: set<Arc>, a: Arc)
    requires Relaxed(arcs, paths, done, pending) && a.from in paths && a.from in done && a.to !in done
    requires a.to in paths ==> Cost(paths[a.from]) + a.cost < Cost(paths[a.to])
    requires Cost(paths[a.from] + [a]) == Cost(paths[a.from]) + a.cost
    ensures Relaxed(arcs, paths[a.to := paths[a.from] + [a]], done, pending - {a})
  {
    hide Cost;
    var paths' := paths[a.to := paths[a.from] + [a]];
    forall b | b in arcs && b.from in done && b !in pending - {a} ensures RelaxedArc(paths', b) {
      if b != a { assert RelaxedArc(paths, b); }
    }
  }

  /** An arc that offers a shorter way, or the first one, to a node that is not done. */
  lemma SearchImprove(arcs: set<Arc>, s: int, paths: map<int, seq<Arc>>, done: set<int>, pending: set<Arc>, a: Arc)
    requires Search(arcs, s, paths, done, pending) && Farthest(paths, done, a.from) && a in arcs
    requires a.to !in done && a.to != s && (a.to in paths ==> Cost(paths[a.from]) + a.cost < Cost(paths[a.to]))
    ensures var paths' := paths[a.to := paths[a.from] + [a]];
            Search(arcs, s, paths', done, pending - {a}) && Farthest(paths', done, a.from)
            && Simple(s, paths'[a.to]) && IsWalk(arcs, s, paths'[a.to], a.to) && Cost(paths'[a.to]) == Cost(paths[a.from]) + a.cost
  {
    hide IsWalk, Cost, NodesOf, Simple, Tree, Relaxed;
    assert IsWalk(arcs, s, paths[a.from], a.from);
    Extend(arcs, s, paths[a.from], a);
    ImproveTree(s, paths, done, a);
    ImproveRelaxed(arcs, paths, done, pending, a);
    ImproveWalks(arcs, s, paths, done, a);
    hide Walks;
    var paths' := paths[a.to := paths[a.from] + [a]];
    assert Cost(paths'[a.to]) >= Cost(paths[a.from]);
    forall x, y | x in done && x in paths' && y in paths' && y !in done ensures Cost(paths'[x]) <= Cost(paths'[y]) {
      assert x != a.to && Cost(paths[x]) <= Cost(paths[a.from]);
      assert y != a.to ==> Cost(paths[x]) <= Cost(paths[y]);
    }
    assert forall v :: v in done ==> v in paths;
    assert done <= paths.Keys && paths.Keys <= paths'.Keys;
    assert Walks(arcs, s, paths', done) && Tree(s, paths', done) && Relaxed(arcs, paths', done, pending - {a});
  }

  /** A finished search has found a shortest walk to every node that has one. */
  lemma {:induction false} SearchShortest(arcs: set<Arc>, s: int, paths: map<int, seq<Arc>>, done: set<int>, q: seq<Arc>, t: int)
    requires Search(arcs, s, paths, done, {}) && IsWalk(arcs, s, q, t)
    requires s in done && forall a :: a in arcs ==> a.from in done && a.to in done
    ensures t in paths && Cost(paths[t]) <= Cost(q)
  {
    if q == [] {
    } else {
      var a := q[|q| - 1];
      SearchShortest(arcs, s, paths, done, q[..|q| - 1], a.from);
      assert RelaxedArc(paths, a);
    }
  }

  lemma MorePending(arcs: set<Arc>, s: int, paths: map<int, seq<Arc>>, done: set<int>, pending: set<Arc>, pending': set<Arc>)
    requires Search(arcs, s, paths, done, pending) && forall a :: a in pending && a in arcs ==> a in pending'
    ensures Search(arcs, s, paths, done, pending')
  {
    hide Walks, Tree, Monotone;
  }

  /** What holds of the node popped last while its links are examined. */
  ghost predicate Popped(paths: map<int, seq<Arc>>, done: set<int>, u: int) {
    u in done && (if u in paths then Farthest(paths, done, u) else paths.Keys <= done)
  }

  /** An arc to a node that is done already, or out of an unreached one. */
  lemma SkipArc(arcs: set<Arc>, s: int, paths: map<int, seq<Arc>>, done: set<int>, pending: set<Arc>, a: Arc)
    requires Search(arcs, s, paths, done, pending) && Popped(paths, done, a.from) && a in arcs
    requires a.to in done || a.from !in paths
    ensures Search(arcs, s, paths, done, pending - {a})
  {
  }

  lemma {:induction false} CostNatural(arcs: set<Arc>, s: int, p: seq<Arc>, t: int)
    requires Costs(arcs) && IsWalk(arcs, s, p, t)
    ensures Cost(p) >= 0
  {
    if p == [] {
    } else {
      CostNatural(arcs, s, p[..|p| - 1], p[|p| - 1].from);
    }
  }

  /** The walk to a node that is not done, by way of a done one, is simple. */
  lemma SimpleStep(arcs: set<Arc>, s: int, paths: map<int, seq<Arc>>, done: set<int>, a: Arc)
    requires Walks(arcs, s, paths, done) && a in arcs && a.from in paths && a.from in done && a.to !in done
    ensures IsWalk(arcs, s, paths[a.from] + [a], a.to) && Simple(s, paths[a.from] + [a])
    ensures Cost(paths[a.from] + [a]) == Cost(paths[a.from]) + a.cost
  {
    var p := paths[a.from];
    assert IsWalk(arcs, s, p, a.from) && Simple(s, p);
    Extend(arcs, s, p, a);
    assert forall x :: x in NodesOf(s, p) ==> x in done;
    hide IsWalk, NodesOf, Cost;
    assert Simple(s, p + [a]);
  }
}
