/** Route generation: shortest primary paths, then redundant sub-paths back to upstream nodes. */
module RouteGeneration {
  import opened Common
  import opened FibonacciForest
  import opened ShortestPaths
  import opened HeapSteps
  import Heap = LltcFibonacciHeap
  import opened LltcGraph

  /** The value a 32-bit signed sum wraps to. */
  function Wrap32(x: int): int {
    (x + 0x8000_0000) % 0x1_0000_0000 - 0x8000_0000
  }

  /** It is the one 32-bit signed value that differs from the sum by a multiple of 2^32. */
  lemma WrapMeans(x: int, y: int)
    ensures y == Wrap32(x) <==> -INT_MAX - 1 <= y <= INT_MAX && (x - y) % 0x1_0000_0000 == 0
  {
    var q := (x + 0x8000_0000) / 0x1_0000_0000;
    assert x - Wrap32(x) == q * 0x1_0000_0000;
    if -INT_MAX - 1 <= y <= INT_MAX && (x - y) % 0x1_0000_0000 == 0 {
      var k := (x - y) / 0x1_0000_0000;
      assert y - Wrap32(x) == (q - k) * 0x1_0000_0000;
    }
  }

  // --------------------------------------------------------------- the search tables

  /** The delay and predecessor tables say what `paths` says about reached nodes. */
  ghost predicate ReachedLabels(s: int, delays: seq<int>, prev: seq<int>, paths: map<int, seq<Arc>>) {
    && |delays| == |prev| && 0 <= s < |prev|
    && (forall v :: v in paths ==> 0 <= v < |prev| && delays[v] == Cost(paths[v]) < INT_MAX)
    && (forall v :: v in paths ==> prev[v] == if v == s || paths[v] == [] then -1 else paths[v][|paths[v]| - 1].from)
  }

  /**
   * Unreached nodes keep INT_MAX until one of them is done; then the sums wrap around, but the
   * predecessor of an unreached node is again an unreached node.
   */
  ghost predicate UnreachedLabels(delays: seq<int>, prev: seq<int>, paths: map<int, seq<Arc>>, done: set<int>) {
    && |delays| == |prev|
    && (done <= paths.Keys ==> forall v :: 0 <= v < |prev| && v !in paths ==> delays[v] == INT_MAX && prev[v] == -1)
    && (forall v :: 0 <= v < |prev| && v !in paths && prev[v] != -1 ==> prev[v] in done && prev[v] !in paths)
  }

  /** Following predecessors goes back in the order in which the nodes were popped. */
  ghost predicate Ordered(prev: seq<int>, done: set<int>, order: map<int, nat>) {
    && order.Keys == done
    && (forall v :: v in done ==> 0 <= v < |prev| && order[v] < |done|)
    && (forall v :: 0 <= v < |prev| && prev[v] != -1 ==> prev[v] in done && (v in done ==> order[prev[v]] < order[v]))
  }

  ghost predicate Labels(s: int, delays: seq<int>, prev: seq<int>, paths: map<int, seq<Arc>>, done: set<int>, order: map<int, nat>) {
    ReachedLabels(s, delays, prev, paths) && UnreachedLabels(delays, prev, paths, done) && Ordered(prev, done, order)
  }

  /** Path sums fit an `int`. */
  ghost predicate SumsFit(arcs: set<Arc>, s: int) {
    forall p, t :: IsWalk(arcs, s, p, t) && Simple(s, p) ==> Cost(p) < INT_MAX
  }

  /** Path sums fit if no link has a delay so large that a simple path over such links would not. */
  lemma SumsFitWhen(arcs: set<Arc>, s: int, n: int, most: nat)
    requires 0 <= s < n && most * (n - 1) < INT_MAX && forall a :: a in arcs ==> 0 <= a.to < n && a.cost <= most
    ensures SumsFit(arcs, s)
  {
    hide IsWalk, Simple, Cost;
    forall p, t | IsWalk(arcs, s, p, t) && Simple(s, p) ensures Cost(p) < INT_MAX {
      CostBounded(arcs, s, p, t, most);
      SimpleShort(arcs, s, p, t, n);
      assert most * |p| <= most * (n - 1);
    }
  }

  lemma LabelsStart(s: int, n: int, order: map<int, nat>)
    requires 0 <= s < n && order == map[]
    ensures Labels(s, seq(n, _ => INT_MAX)[s := 0], seq(n, _ => -1), map[s := []], {}, order)
  {
  }

  /** Popping the node of the smallest delay. */
  lemma LabelsPop(arcs: set<Arc>, s: int, delays: seq<int>, prev: seq<int>, paths: map<int, seq<Arc>>, done: set<int>, order: map<int, nat>,
                  u: int, pending: set<Arc>)
    requires Search(arcs, s, paths, done, {}) && Labels(s, delays, prev, paths, done, order)
    requires 0 <= u < |prev| && u !in done && forall v :: 0 <= v < |prev| && v !in done ==> delays[u] <= delays[v]
    requires forall a :: a in arcs && a.from == u ==> a in pending
    ensures Search(arcs, s, paths, done + {u}, pending) && Labels(s, delays, prev, paths, done + {u}, order[u := |done|])
    ensures u in paths ==> Farthest(paths, done + {u}, u)
    ensures u !in paths ==> paths.Keys <= done
  {
    hide Ordered, Walks, Tree, Relaxed;
    OrderedPop(prev, done, order, u);
    PopSide(s, delays, prev, paths, done, u);
    hide ReachedLabels, Monotone;
    if u in paths {
      SearchPop(arcs, s, paths, done, u, pending);
    } else {
      SearchPopUnreached(arcs, s, paths, done, u);
      MorePending(arcs, s, paths, done + {u}, {}, pending);
    }
  }

  lemma OrderedPop(prev: seq<int>, done: set<int>, order: map<int, nat>, u: int)
    requires Ordered(prev, done, order) && 0 <= u < |prev| && u !in done
    ensures Ordered(prev, done + {u}, order[u := |done|])
  {
  }

  /** A reached node is popped before any unreached one. */
  lemma PopSide(s: int, delays: seq<int>, prev: seq<int>, paths: map<int, seq<Arc>>, done: set<int>, u: int)
    requires ReachedLabels(s, delays, prev, paths) && UnreachedLabels(delays, prev, paths, done) && Monotone(paths, done)
    requires 0 <= u < |prev| && u !in done && forall v :: 0 <= v < |prev| && v !in done ==> delays[u] <= delays[v]
    ensures if u in paths then forall v :: v in paths && v !in done ==> Cost(paths[u]) <= Cost(paths[v]) else paths.Keys <= done
    ensures UnreachedLabels(delays, prev, paths, done + {u})
  {
    hide Cost;
    if u in paths {
      assert done <= paths.Keys;
    } else if done <= paths.Keys {
      assert delays[u] == INT_MAX;
      forall v | v in paths ensures v in done { assert delays[v] < INT_MAX; }
    }
  }

  /** The tables after an arc out of the node popped last has been examined. */
  lemma RelaxReached(arcs: set<Arc>, s: int, delays: seq<int>, prev: seq<int>, paths: map<int, seq<Arc>>, done: set<int>,
                     order: map<int, nat>, pending: set<Arc>, a: Arc)
    requires Search(arcs, s, paths, done, pending) && Labels(s, delays, prev, paths, done, order) && SumsFit(arcs, s)
    requires a in arcs && 0 <= a.from < |prev| && 0 <= a.to < |prev| && a.to !in done && a.to != s
    requires a.from in paths && Farthest(paths, done, a.from)
    ensures Wrap32(a.cost + delays[a.from]) == Cost(paths[a.from]) + a.cost
    ensures var overV, paths' := Wrap32(a.cost + delays[a.from]), paths[a.to := paths[a.from] + [a]];
            if overV < delays[a.to] then
              Search(arcs, s, paths', done, pending - {a}) && Popped(paths', done, a.from)
              && Labels(s, delays[a.to := overV], prev[a.to := a.from], paths', done, order)
            else Search(arcs, s, paths, done, pending - {a})
  {
    hide Search, Labels, IsWalk, NodesOf, Simple, SumsFit, Cost, Farthest;
    ReachedFacts(arcs, s, delays, prev, paths, done, order, pending, a);
    if Cost(paths[a.from]) + a.cost < delays[a.to] {
      SearchImprove(arcs, s, paths, done, pending, a);
      ImproveLabels(s, delays, prev, paths, done, order, a);
    } else {
      SearchKeep(arcs, s, paths, done, pending, a);
    }
  }

  lemma ReachedFacts(arcs: set<Arc>, s: int, delays: seq<int>, prev: seq<int>, paths: map<int, seq<Arc>>, done: set<int>,
                     order: map<int, nat>, pending: set<Arc>, a: Arc)
    requires Search(arcs, s, paths, done, pending) && Labels(s, delays, prev, paths, done, order) && SumsFit(arcs, s)
    requires a in arcs && 0 <= a.from < |prev| && 0 <= a.to < |prev| && a.to !in done && a.from in paths && Farthest(paths, done, a.from)
    ensures |delays| == |prev| && delays[a.from] == Cost(paths[a.from]) && a.from in done && done <= paths.Keys
    ensures if a.to in paths then delays[a.to] == Cost(paths[a.to]) else delays[a.to] == INT_MAX
    ensures 0 <= Cost(paths[a.from]) + a.cost < INT_MAX && Cost(paths[a.from] + [a]) == Cost(paths[a.from]) + a.cost
  {
    hide IsWalk, NodesOf, Simple, SumsFit, Cost, Tree, Relaxed, Ordered, Monotone;
    assert done <= paths.Keys by { assert forall v :: v in done ==> v in paths; }
    assert IsWalk(arcs, s, paths[a.from], a.from);
    CostNatural(arcs, s, paths[a.from], a.from);
    SimpleStep(arcs, s, paths, done, a);
    SumFits(arcs, s, paths[a.from] + [a], a.to);
  }

  lemma SumFits(arcs: set<Arc>, s: int, p: seq<Arc>, t: int)
    requires SumsFit(arcs, s) && IsWalk(arcs, s, p, t) && Simple(s, p)
    ensures Cost(p) < INT_MAX
  {
  }

  lemma ImproveLabels(s: int, delays: seq<int>, prev: seq<int>, paths: map<int, seq<Arc>>, done: set<int>, order: map<int, nat>, a: Arc)
    requires Labels(s, delays, prev, paths, done, order) && a.from in paths && a.from in done && a.to !in done && a.to != s
    requires 0 <= a.to < |prev| && 0 <= a.from < |prev| && done <= paths.Keys
    requires Cost(paths[a.from] + [a]) == Cost(paths[a.from]) + a.cost < INT_MAX
    ensures Labels(s, delays[a.to := Cost(paths[a.from]) + a.cost], prev[a.to := a.from], paths[a.to := paths[a.from] + [a]], done, order)
  {
    hide Cost;
  }

  /** Out of an unreached node: only tables of unreached nodes change. */
  lemma RelaxUnreached(s: int, delays: seq<int>, prev: seq<int>, paths: map<int, seq<Arc>>, done: set<int>, order: map<int, nat>,
                       u: int, v: int, overV: int)
    requires Labels(s, delays, prev, paths, done, order) && u in done && u !in paths && paths.Keys <= done
    requires 0 <= u < |prev| && 0 <= v < |prev| && v !in done
    ensures Labels(s, delays[v := overV], prev[v := u], paths, done, order)
  {
    hide Cost;
  }

  // --------------------------------------------------------------------- the search

  /** The arcs out of `u` from its i-th link on. */
  ghost function ArcsFrom(links: seq<LltcLink>, u: int, i: nat): set<Arc> {
    set j | i <= j < |links| :: ArcOf(links[j], u)
  }

  lemma ArcsFromFacts(adj: Adjacency, n: int, forbidden: set<int>, u: int, i: nat)
    requires 0 <= u < n <= |adj| && Ends(adj, n) && i < |adj[u]|
    ensures forall a :: a in ArcsFrom(adj[u], u, i) && a != ArcOf(adj[u][i], u) ==> a in ArcsFrom(adj[u], u, i + 1)
    ensures 0 <= GetLinkOpSide(adj[u][i], u) < n
    ensures ArcOf(adj[u][i], u) in ArcsOf(adj, n, forbidden) <==> adj[u][i].linkId !in forbidden
  {
    assert adj[u][i] in adj[u];
  }

  lemma ArcsFromAll(adj: Adjacency, n: int, forbidden: set<int>, u: int)
    requires 0 <= n <= |adj| && 0 <= u < n
    ensures forall a :: a in ArcsOf(adj, n, forbidden) && a.from == u ==> a in ArcsFrom(adj[u], u, 0)
  {
  }

  lemma ArcsOfEnds(adj: Adjacency, n: int, forbidden: set<int>)
    requires Ends(adj, n) && DelaysFit(adj, n)
    ensures Costs(ArcsOf(adj, n, forbidden))
    ensures forall a :: a in ArcsOf(adj, n, forbidden) ==> 0 <= a.from < n && 0 <= a.to < n
  {
  }

  /** Following predecessors comes to an end. */
  ghost predicate Acyclic(prev: seq<int>, order: map<int, nat>) {
    && (forall t :: 0 <= t < |prev| ==> t in order)
    && (forall t :: 0 <= t < |prev| && prev[t] != -1 ==> 0 <= prev[t] < |prev| && order[prev[t]] < order[t])
  }

  /** Every way to a reached node is the way to its predecessor and one arc more. */
  ghost predicate Entries(s: int, prev: seq<int>, paths: map<int, seq<Arc>>) {
    && 0 <= s < |prev| && s in paths && paths[s] == [] && prev[s] == -1
    && (forall t :: t in paths ==> 0 <= t < |prev|)
    && (forall t :: t in paths && t != s ==>
         && paths[t] != [] && prev[t] == paths[t][|paths[t]| - 1].from && prev[t] in paths
         && paths[t] == paths[prev[t]] + [paths[t][|paths[t]| - 1]])
  }

  /** The predecessor table of a finished search. */
  ghost predicate ShortestTree(arcs: set<Arc>, s: int, prev: seq<int>, paths: map<int, seq<Arc>>, order: map<int, nat>) {
    && Entries(s, prev, paths) && Acyclic(prev, order)
    && (forall t :: t in paths ==> Shortest(arcs, s, paths[t], t) && Simple(s, paths[t]))
    && (forall t :: Reachable(arcs, s, t) ==> t in paths)
    && (forall t :: 0 <= t < |prev| && t !in paths && prev[t] != -1 ==> prev[t] !in paths)
  }

  lemma TreeFound(arcs: set<Arc>, s: int, delays: seq<int>, prev: seq<int>, paths: map<int, seq<Arc>>, done: set<int>, order: map<int, nat>)
    requires Search(arcs, s, paths, done, {}) && Labels(s, delays, prev, paths, done, order)
    requires forall v :: v in done <==> 0 <= v < |prev|
    requires forall a :: a in arcs ==> 0 <= a.from < |prev| && 0 <= a.to < |prev|
    ensures ShortestTree(arcs, s, prev, paths, order)
  {
    hide Entries, Acyclic, Ordered, ReachedLabels, Reachable, Shortest, Simple, Tree, Relaxed, Monotone;
    TreeEntries(s, delays, prev, paths, done);
    ShortestFound(arcs, s, prev, paths, done);
    OrderedAcyclic(prev, done, order);
  }

  lemma OrderedAcyclic(prev: seq<int>, done: set<int>, order: map<int, nat>)
    requires Ordered(prev, done, order) && forall v :: v in done <==> 0 <= v < |prev|
    ensures Acyclic(prev, order)
  {
  }

  lemma ShortestFound(arcs: set<Arc>, s: int, prev: seq<int>, paths: map<int, seq<Arc>>, done: set<int>)
    requires Search(arcs, s, paths, done, {})
    requires 0 <= s < |prev| && forall v :: v in done <==> 0 <= v < |prev|
    requires forall a :: a in arcs ==> 0 <= a.from < |prev| && 0 <= a.to < |prev|
    ensures forall t :: t in paths ==> Shortest(arcs, s, paths[t], t) && Simple(s, paths[t])
    ensures forall t :: Reachable(arcs, s, t) ==> t in paths
  {
    hide Cost, IsWalk, NodesOf, Simple, Tree, Relaxed, Monotone;
    forall q, t | IsWalk(arcs, s, q, t) ensures t in paths && Cost(paths[t]) <= Cost(q) {
      SearchShortest(arcs, s, paths, done, q, t);
    }
  }

  lemma TreeEntries(s: int, delays: seq<int>, prev: seq<int>, paths: map<int, seq<Arc>>, done: set<int>)
    requires Tree(s, paths, done) && s in paths && paths[s] == [] && ReachedLabels(s, delays, prev, paths)
    ensures 0 <= s < |prev| && Entries(s, prev, paths)
  {
    hide Cost;
    forall t | t in paths && t != s
      ensures paths[t] != [] && prev[t] == paths[t][|paths[t]| - 1].from && prev[t] in paths
      ensures paths[t] == paths[prev[t]] + [paths[t][|paths[t]| - 1]]
    {
      assert TreeAt(s, paths, done, t);
    }
  }

  /** The invariant of the search: what is not done is in the heap, whose keys are the delays. */
  ghost predicate Searching(arcs: set<Arc>, s: int, n: int, delays: seq<int>, prev: seq<int>, inQ: seq<bool>, objects: set<int>,
                            paths: map<int, seq<Arc>>, done: set<int>, order: map<int, nat>, pending: set<Arc>)
  {
    && |prev| == |inQ| == n && 0 <= s < n && SumsFit(arcs, s)
    && Search(arcs, s, paths, done, pending) && Labels(s, delays, prev, paths, done, order)
    && (forall v :: 0 <= v < n ==> (inQ[v] <==> v in objects) && (v in objects <==> v !in done))
    && (forall v :: v in objects || v in done ==> 0 <= v < n)
    && (forall a :: a in arcs ==> 0 <= a.from < n && 0 <= a.to < n)
    && (s in done || (done == {} && paths.Keys == {s}))
  }

  lemma SearchingStart(adj: Adjacency, forbidden: set<int>, s: int, n: int) returns (order: map<int, nat>)
    requires 0 <= s < n && Ends(adj, n) && DelaysFit(adj, n) && SumsFit(ArcsOf(adj, n, forbidden), s)
    ensures Searching(ArcsOf(adj, n, forbidden), s, n, seq(n, _ => INT_MAX)[s := 0], seq(n, _ => -1), seq(n, _ => true),
                      Below(n), map[s := []], {}, order, {})
  {
    hide Search, Labels, SumsFit, ArcsOf;
    order := map[];
    ArcsOfEnds(adj, n, forbidden);
    SearchStart(ArcsOf(adj, n, forbidden), s);
    LabelsStart(s, n, order);
  }

  method GenPathDijkstra(g: LltcGraph, n: int, srcNodeId: int, invalidLinkIDsInPP: set<int>, invalidLinkIDsInRSPs: set<int>)
    returns (prevNodeIdx: seq<int>, ghost paths: map<int, seq<Arc>>, ghost order: map<int, nat>)
    requires 0 <= srcNodeId < n <= INT_MAX && n <= |g.eLinks| && Ends(g.eLinks, n) && DelaysFit(g.eLinks, n)
    requires SumsFit(ArcsOf(g.eLinks, n, invalidLinkIDsInPP + invalidLinkIDsInRSPs), srcNodeId)
    ensures |prevNodeIdx| == n
    ensures ShortestTree(ArcsOf(g.eLinks, n, invalidLinkIDsInPP + invalidLinkIDsInRSPs), srcNodeId, prevNodeIdx, paths, order)
  {
    hide *;
    ghost var forbidden := invalidLinkIDsInPP + invalidLinkIDsInRSPs;
    ghost var arcs := ArcsOf(g.eLinks, n, forbidden);
    order := SearchingStart(g.eLinks, forbidden, srcNodeId, n);
    prevNodeIdx := seq(n, _ => -1);
    var isNodeIdInQ := seq(n, _ => true);
    var delays := new int[n](_ => INT_MAX);
    delays[srcNodeId] := 0;
    var q := FillQueue(n, delays);
    assert delays[..] == seq(n, _ => INT_MAX)[srcNodeId := 0];
    paths := map[srcNodeId := []];
    ghost var done: set<int> := {};
    var size := q.Size();
    while size > 0
      invariant fresh(q) && fresh(delays) && q.keys == delays && delays.Length == n
      invariant q.Valid() && size == |q.objects|
      invariant Searching(arcs, srcNodeId, n, delays[..], prevNodeIdx, isNodeIdInQ, q.objects, paths, done, order, {})
      decreases |q.objects|
    {
      ghost var before := q.objects;
      var uNodeId := q.RemoveMax();
      assert q.objects + {uNodeId} == before;
      SearchingPop(g.eLinks, forbidden, srcNodeId, n, delays[..], prevNodeIdx, isNodeIdInQ, q.objects, paths, done, order, uNodeId);
      isNodeIdInQ := isNodeIdInQ[uNodeId := false];
      order := order[uNodeId := |done|];
      done := done + {uNodeId};
      prevNodeIdx, paths := RelaxLinks(g, n, srcNodeId, uNodeId, invalidLinkIDsInPP, invalidLinkIDsInRSPs, q, delays,
                                       prevNodeIdx, isNodeIdInQ, paths, done, order);
      size := q.Size();
    }
    SearchingEnd(arcs, srcNodeId, n, delays[..], prevNodeIdx, isNodeIdInQ, q.objects, paths, done, order);
  }

  ghost function Below(n: nat): (r: set<int>)
    ensures |r| == n && forall x :: x in r <==> 0 <= x < n
  {
    if n == 0 then {} else Below(n - 1) + {n - 1}
  }

  method FillQueue(n: int, delays: array<int>) returns (q: Heap.FibonacciHeap)
    requires 0 <= n <= INT_MAX && delays.Length == n
    ensures fresh(q) && q.keys == delays && q.Valid() && q.objects == Below(n) && q.State() == Filled(delays[..], n)
  {
    hide *;
    q := new Heap.FibonacciHeap(delays);
    FilledStep(delays[..], 0);
    var i := 0;
    while i < n
      invariant 0 <= i <= n && fresh(q) && q.keys == delays
      invariant q.Valid() && q.objects == Below(i) && q.State() == Filled(delays[..], i)
    {
      assert Below(i + 1) == Below(i) + {i};
      q.Insert(i);
      i := i + 1;
      FilledStep(delays[..], i);
    }
  }

  lemma FilledStep(keys: seq<int>, n: nat)
    ensures Filled(keys, n) == if n == 0 then Empty(|keys|) else WithNode(Filled(keys, n - 1), keys, n - 1)
  {
  }

  lemma SearchingPop(adj: Adjacency, forbidden: set<int>, s: int, n: int, delays: seq<int>, prev: seq<int>, inQ: seq<bool>, objects: set<int>,
                     paths: map<int, seq<Arc>>, done: set<int>, order: map<int, nat>, u: int)
    requires 0 <= n <= |adj| && u !in objects && |delays| == n
    requires Searching(ArcsOf(adj, n, forbidden), s, n, delays, prev, inQ, objects + {u}, paths, done, order, {})
    requires forall x :: x in objects + {u} ==> 0 <= x < n && 0 <= u < n && delays[u] <= delays[x]
    ensures 0 <= u < n == |inQ|
    ensures Searching(ArcsOf(adj, n, forbidden), s, n, delays, prev, inQ[u := false], objects, paths, done + {u}, order[u := |done|], ArcsFrom(adj[u], u, 0))
    ensures Popped(paths, done + {u}, u) && s in done + {u}
  {
    hide Search, SumsFit, ArcsOf, ArcsFrom, ReachedLabels, UnreachedLabels, Ordered;
    assert u in objects + {u};
    ArcsFromAll(adj, n, forbidden, u);
    assert |delays| == |prev| by { TableSizes(s, delays, prev, paths, done); }
    forall v | 0 <= v < |prev| && v !in done ensures delays[u] <= delays[v] {
      assert v in objects + {u};
    }
    if done == {} && paths.Keys == {s} { FirstIsSource(s, delays, prev, paths, done, u); }
    LabelsPop(ArcsOf(adj, n, forbidden), s, delays, prev, paths, done, order, u, ArcsFrom(adj[u], u, 0));
  }

  lemma TableSizes(s: int, delays: seq<int>, prev: seq<int>, paths: map<int, seq<Arc>>, done: set<int>)
    requires UnreachedLabels(delays, prev, paths, done)
    ensures |delays| == |prev|
  {
  }

  lemma FirstIsSource(s: int, delays: seq<int>, prev: seq<int>, paths: map<int, seq<Arc>>, done: set<int>, u: int)
    requires ReachedLabels(s, delays, prev, paths) && UnreachedLabels(delays, prev, paths, done)
    requires 0 <= u < |prev| && forall v :: 0 <= v < |prev| && v !in done ==> delays[u] <= delays[v]
    requires done == {} && paths.Keys == {s}
    ensures u == s
  {
  }

  lemma SearchingEnd(arcs: set<Arc>, s: int, n: int, delays: seq<int>, prev: seq<int>, inQ: seq<bool>, objects: set<int>,
                     paths: map<int, seq<Arc>>, done: set<int>, order: map<int, nat>)
    requires Searching(arcs, s, n, delays, prev, inQ, objects, paths, done, order, {}) && |objects| == 0
    ensures |prev| == n && ShortestTree(arcs, s, prev, paths, order)
  {
    hide Search, Labels, SumsFit, ShortestTree;
    TreeFound(arcs, s, delays, prev, paths, done, order);
  }

  /** The inner loop: examines every link of the node popped last. */
  method RelaxLinks(g: LltcGraph, n: int, ghost s: int, uNodeId: int, invalidLinkIDsInPP: set<int>, invalidLinkIDsInRSPs: set<int>,
                    q: Heap.FibonacciHeap, delays: array<int>, prev: seq<int>, isNodeIdInQ: seq<bool>,
                    ghost paths: map<int, seq<Arc>>, ghost done: set<int>, ghost order: map<int, nat>)
    returns (prevNodeIdx: seq<int>, ghost paths': map<int, seq<Arc>>)
    requires 0 <= uNodeId < n <= |g.eLinks| && Ends(g.eLinks, n) && delays.Length == n && |isNodeIdInQ| == n
    requires q.keys == delays && q.Valid() && Popped(paths, done, uNodeId) && s in done
    requires Searching(ArcsOf(g.eLinks, n, invalidLinkIDsInPP + invalidLinkIDsInRSPs), s, n, delays[..], prev, isNodeIdInQ,
                       q.objects, paths, done, order, ArcsFrom(g.eLinks[uNodeId], uNodeId, 0))
    modifies q, delays
    ensures q.Valid() && q.objects == old(q.objects)
    ensures Searching(ArcsOf(g.eLinks, n, invalidLinkIDsInPP + invalidLinkIDsInRSPs), s, n, delays[..], prevNodeIdx, isNodeIdInQ,
                      q.objects, paths', done, order, {})
  {
    hide *;
    ghost var forbidden := invalidLinkIDsInPP + invalidLinkIDsInRSPs;
    ghost var arcs, links := ArcsOf(g.eLinks, n, forbidden), g.eLinks[uNodeId];
    prevNodeIdx, paths' := prev, paths;
    var i := 0;
    while i < |g.eLinks[uNodeId]|
      invariant 0 <= i <= |links| && q.Valid() && q.objects == old(q.objects) && Popped(paths', done, uNodeId)
      invariant Searching(arcs, s, n, delays[..], prevNodeIdx, isNodeIdInQ, q.objects, paths', done, order, ArcsFrom(links, uNodeId, i))
    {
      var e := g.eLinks[uNodeId][i];
      ghost var a := ArcOf(e, uNodeId);
      var vNodeId := GetLinkOpSide(e, uNodeId);
      LinkFacts(g.eLinks, n, forbidden, uNodeId, i);
      if e.linkId in invalidLinkIDsInPP || e.linkId in invalidLinkIDsInRSPs {
        SearchingForbidden(g.eLinks, forbidden, s, n, delays[..], prevNodeIdx, isNodeIdInQ, q.objects, paths', done, order, uNodeId, i);
      } else if !isNodeIdInQ[vNodeId] {
        SearchingSkip(g.eLinks, forbidden, s, n, delays[..], prevNodeIdx, isNodeIdInQ, q.objects, paths', done, order, uNodeId, i);
      } else {
        ghost var before := delays[..];
        var overV := Wrap32(e.abDelayTotal + delays[uNodeId]);
        SearchingRelax(g.eLinks, forbidden, s, n, before, prevNodeIdx, isNodeIdInQ, q.objects, paths', done, order, uNodeId, i);
        if overV < delays[vNodeId] {
          prevNodeIdx := prevNodeIdx[vNodeId := uNodeId];
          q.ValidKeys(HeapSteps.NIL);
          delays[vNodeId] := overV;
          assert delays[..] == before[vNodeId := overV];
          q.Raised(before, vNodeId, overV);
          q.ValidKeys(vNodeId);
          q.UpdateKey(vNodeId);
          paths' := if uNodeId in paths' then paths'[vNodeId := paths'[uNodeId] + [a]] else paths';
        }
      }
      i := i + 1;
    }
    NoArcsLeft(links, uNodeId);
  }

  lemma NoArcsLeft(links: seq<LltcLink>, u: int)
    ensures ArcsFrom(links, u, |links|) == {}
  {
  }

  lemma LinkFacts(adj: Adjacency, n: int, forbidden: set<int>, u: int, i: nat)
    requires 0 <= u < n <= |adj| && Ends(adj, n) && i < |adj[u]|
    ensures var e := adj[u][i]; var a := ArcOf(e, u);
            a.from == u && a.to == GetLinkOpSide(e, u) && a.cost == e.abDelayTotal && 0 <= a.to < n
  {
    ArcsFromFacts(adj, n, forbidden, u, i);
  }

  lemma SearchingForbidden(adj: Adjacency, forbidden: set<int>, s: int, n: int, delays: seq<int>, prev: seq<int>, inQ: seq<bool>, objects: set<int>,
                           paths: map<int, seq<Arc>>, done: set<int>, order: map<int, nat>, u: int, i: nat)
    requires 0 <= u < n <= |adj| && Ends(adj, n) && i < |adj[u]| && adj[u][i].linkId in forbidden
    requires Searching(ArcsOf(adj, n, forbidden), s, n, delays, prev, inQ, objects, paths, done, order, ArcsFrom(adj[u], u, i))
    ensures Searching(ArcsOf(adj, n, forbidden), s, n, delays, prev, inQ, objects, paths, done, order, ArcsFrom(adj[u], u, i + 1))
  {
    hide Search, Labels, SumsFit, Ends, ArcsOf, ArcsFrom;
    ArcsFromFacts(adj, n, forbidden, u, i);
    MorePending(ArcsOf(adj, n, forbidden), s, paths, done, ArcsFrom(adj[u], u, i), ArcsFrom(adj[u], u, i + 1));
  }

  lemma SearchingSkip(adj: Adjacency, forbidden: set<int>, s: int, n: int, delays: seq<int>, prev: seq<int>, inQ: seq<bool>, objects: set<int>,
                      paths: map<int, seq<Arc>>, done: set<int>, order: map<int, nat>, u: int, i: nat)
    requires 0 <= u < n <= |adj| && Ends(adj, n) && i < |adj[u]| && adj[u][i].linkId !in forbidden && Popped(paths, done, u)
    requires 0 <= GetLinkOpSide(adj[u][i], u) < |inQ| && !inQ[GetLinkOpSide(adj[u][i], u)]
    requires Searching(ArcsOf(adj, n, forbidden), s, n, delays, prev, inQ, objects, paths, done, order, ArcsFrom(adj[u], u, i))
    ensures Searching(ArcsOf(adj, n, forbidden), s, n, delays, prev, inQ, objects, paths, done, order, ArcsFrom(adj[u], u, i + 1))
  {
    hide Search, Labels, SumsFit, Ends, ArcsOf, ArcsFrom, Popped;
    ArcsFromFacts(adj, n, forbidden, u, i);
    var arcs, a := ArcsOf(adj, n, forbidden), ArcOf(adj[u][i], u);
    SkipArc(arcs, s, paths, done, ArcsFrom(adj[u], u, i), a);
    MorePending(arcs, s, paths, done, ArcsFrom(adj[u], u, i) - {a}, ArcsFrom(adj[u], u, i + 1));
  }

  lemma SearchingRelax(adj: Adjacency, forbidden: set<int>, s: int, n: int, delays: seq<int>, prev: seq<int>, inQ: seq<bool>, objects: set<int>,
                       paths: map<int, seq<Arc>>, done: set<int>, order: map<int, nat>, u: int, i: nat)
    requires 0 <= u < n <= |adj| && Ends(adj, n) && i < |adj[u]| && adj[u][i].linkId !in forbidden && Popped(paths, done, u) && s in done
    requires 0 <= GetLinkOpSide(adj[u][i], u) < |inQ| && inQ[GetLinkOpSide(adj[u][i], u)]
    requires Searching(ArcsOf(adj, n, forbidden), s, n, delays, prev, inQ, objects, paths, done, order, ArcsFrom(adj[u], u, i))
    ensures |delays| == |prev| == n && 0 <= GetLinkOpSide(adj[u][i], u) < n && GetLinkOpSide(adj[u][i], u) in objects
    ensures var a, v := ArcOf(adj[u][i], u), GetLinkOpSide(adj[u][i], u);
            var overV, paths' := Wrap32(adj[u][i].abDelayTotal + delays[u]), if u in paths then paths[v := paths[u] + [a]] else paths;
            if overV < delays[v] then
              Searching(ArcsOf(adj, n, forbidden), s, n, delays[v := overV], prev[v := u], inQ, objects, paths', done, order, ArcsFrom(adj[u], u, i + 1))
              && Popped(paths', done, u)
            else Searching(ArcsOf(adj, n, forbidden), s, n, delays, prev, inQ, objects, paths, done, order, ArcsFrom(adj[u], u, i + 1))
  {
    hide Search, SumsFit, Ends, ArcsOf, ArcsFrom, Cost, UnreachedLabels, Ordered;
    ArcsFromFacts(adj, n, forbidden, u, i);
    var arcs, a, v := ArcsOf(adj, n, forbidden), ArcOf(adj[u][i], u), GetLinkOpSide(adj[u][i], u);
    var overV, pending, pending' := Wrap32(adj[u][i].abDelayTotal + delays[u]), ArcsFrom(adj[u], u, i), ArcsFrom(adj[u], u, i + 1);
    hide ReachedLabels;
    if u in paths {
      RelaxReached(arcs, s, delays, prev, paths, done, order, pending, a);
      MorePending(arcs, s, if overV < delays[v] then paths[v := paths[u] + [a]] else paths, done, pending - {a}, pending');
    } else {
      SkipArc(arcs, s, paths, done, pending, a);
      MorePending(arcs, s, paths, done, pending - {a}, pending');
      RelaxUnreached(s, delays, prev, paths, done, order, u, v, overV);
    }
  }

  // ---------------------------------------------------------------- reading the tree

  /** The nodes from `v` back to the source, or to a node without predecessor. */
  ghost function Back(prev: seq<int>, order: map<int, nat>, s: int, v: int): (r: seq<int>)
    requires Acyclic(prev, order) && 0 <= v < |prev|
    ensures |r| >= 1 && r[0] == v && forall i :: 0 <= i < |r| ==> 0 <= r[i] < |prev|
    ensures forall i :: 0 <= i < |r| - 1 ==> r[i] != s && prev[r[i]] == r[i + 1]
    ensures r[|r| - 1] == s || prev[r[|r| - 1]] == -1
    decreases order[v]
  {
    if v == s || prev[v] == -1 then [v] else [v] + Back(prev, order, s, prev[v])
  }

  lemma TreeAcyclic(arcs: set<Arc>, s: int, prev: seq<int>, paths: map<int, seq<Arc>>, order: map<int, nat>, t: int)
    requires ShortestTree(arcs, s, prev, paths, order)
    ensures Acyclic(prev, order) && 0 <= s < |prev| && prev[s] == -1
    ensures t in paths ==> 0 <= t < |prev| && Shortest(arcs, s, paths[t], t) && Simple(s, paths[t])
    ensures t in paths <==> Reachable(arcs, s, t)
  {
  }

  /** Read backwards, the nodes back from a reached node are those of its path. */
  lemma {:induction false} BackReached(arcs: set<Arc>, s: int, prev: seq<int>, paths: map<int, seq<Arc>>, order: map<int, nat>, v: int)
    requires ShortestTree(arcs, s, prev, paths, order) && Acyclic(prev, order) && v in paths && 0 <= v < |prev|
    ensures |Back(prev, order, s, v)| == |paths[v]| + 1
    ensures forall i :: 0 <= i <= |paths[v]| ==> NodesOf(s, paths[v])[i] == Back(prev, order, s, v)[|paths[v]| - i]
    ensures Back(prev, order, s, v)[|paths[v]|] == s
    decreases order[v]
  {
    hide Cost, Simple, IsWalk;
    if v == s {
    } else {
      var u := prev[v];
      var p, q := paths[v], paths[u];
      assert p == q + [p[|p| - 1]] && p[|p| - 1].to == v by { LastArc(arcs, s, prev, paths, order, v); }
      assert p[..|p| - 1] == q;
      BackReached(arcs, s, prev, paths, order, u);
      var nodes, back := NodesOf(s, p), Back(prev, order, s, v);
      assert nodes == NodesOf(s, q) + [v] && back == [v] + Back(prev, order, s, u);
    }
  }

  lemma LastArc(arcs: set<Arc>, s: int, prev: seq<int>, paths: map<int, seq<Arc>>, order: map<int, nat>, v: int)
    requires ShortestTree(arcs, s, prev, paths, order) && v in paths && v != s
    ensures paths[v] != [] && 0 <= v < |prev| && prev[v] in paths && paths[v] == paths[prev[v]] + [paths[v][|paths[v]| - 1]]
    ensures paths[v][|paths[v]| - 1].to == v && 0 <= prev[v] < |prev| && prev[v] != -1
  {
    hide Cost, Simple;
    assert Shortest(arcs, s, paths[v], v);
  }

  /** The way back from an unreached node never comes to the source. */
  lemma {:induction false} BackUnreached(arcs: set<Arc>, s: int, prev: seq<int>, paths: map<int, seq<Arc>>, order: map<int, nat>, v: int)
    requires ShortestTree(arcs, s, prev, paths, order) && Acyclic(prev, order) && v !in paths && 0 <= v < |prev|
    ensures s !in Back(prev, order, s, v)
    decreases order[v]
  {
    hide Cost, Simple, IsWalk, NodesOf, Reachable;
    if prev[v] == -1 {
    } else {
      BackUnreached(arcs, s, prev, paths, order, prev[v]);
    }
  }

  /** The second loop: enters the nodes on the way back, from the end, until the source or the first place is reached. */
  method FillBack(prevNodeIdx: seq<int>, srcNodeId: int, dstNodeId: int, dropLast: bool, pathNodes: int, ghost back: seq<int>)
    returns (nodeIds: seq<int>, p: int, v: int)
    requires pathNodes == |back| >= 1 && back[0] == dstNodeId && forall i :: 0 <= i < |back| ==> 0 <= back[i] < |prevNodeIdx|
    requires forall i :: 0 <= i < |back| - 1 ==> back[i] != srcNodeId && prevNodeIdx[back[i]] == back[i + 1]
    ensures |nodeIds| == (if dropLast then |back| - 1 else |back|) && -1 <= p < |back| - 1
    ensures forall j :: p < j < |nodeIds| ==> nodeIds[j] == back[|back| - 1 - j]
    ensures v == if p >= 0 then back[|back| - 1 - p] else prevNodeIdx[back[|back| - 1]]
    ensures p >= 0 ==> v == srcNodeId
    ensures p == -1 ==> |back| == 1 || back[|back| - 1] != srcNodeId
  {
    nodeIds := seq(if dropLast then pathNodes - 1 else pathNodes, _ => 0);
    v := dstNodeId;
    p := pathNodes - 1;
    while true
      invariant 0 <= p < pathNodes && v == back[pathNodes - 1 - p] && (p < pathNodes - 1 ==> v != srcNodeId)
      invariant |nodeIds| == if dropLast then pathNodes - 1 else pathNodes
      invariant forall j :: p < j < |nodeIds| ==> nodeIds[j] == back[pathNodes - 1 - j]
      decreases p
    {
      if dropLast && p < pathNodes - 1 {
        nodeIds := nodeIds[p := v];
      } else if !dropLast {
        nodeIds := nodeIds[p := v];
      }
      v := prevNodeIdx[v];
      p := p - 1;
      if !(p >= 0 && v != srcNodeId) { break; }
    }
  }

  /**
   * The node ids of the path to `dstNodeId`.  There is none exactly if the node is unreachable or is the
   * source itself, whose missing predecessor ends the second loop in the same way.
   */
  method ConvertPrevToPath(prevNodeIdx: seq<int>, srcNodeId: int, dstNodeId: int, dropLast: bool,
                           ghost arcs: set<Arc>, ghost paths: map<int, seq<Arc>>, ghost order: map<int, nat>)
    returns (path: Option<seq<int>>)
    requires ShortestTree(arcs, srcNodeId, prevNodeIdx, paths, order) && 0 <= dstNodeId < |prevNodeIdx|
    ensures path.None? <==> !Reachable(arcs, srcNodeId, dstNodeId) || dstNodeId == srcNodeId
    ensures path.Some? ==> dstNodeId in paths && Shortest(arcs, srcNodeId, paths[dstNodeId], dstNodeId) && Simple(srcNodeId, paths[dstNodeId])
    ensures path.Some? ==> path.value == if dropLast then NodesOf(srcNodeId, paths[dstNodeId])[..|paths[dstNodeId]|]
                                         else NodesOf(srcNodeId, paths[dstNodeId])
  {
    hide *;
    TreeAcyclic(arcs, srcNodeId, prevNodeIdx, paths, order, dstNodeId);
    ghost var back := Back(prevNodeIdx, order, srcNodeId, dstNodeId);
    if dstNodeId in paths {
      BackReached(arcs, srcNodeId, prevNodeIdx, paths, order, dstNodeId);
    } else {
      BackUnreached(arcs, srcNodeId, prevNodeIdx, paths, order, dstNodeId);
    }
    var pathNodes := 1;
    var v := dstNodeId;
    while v != srcNodeId
      invariant 1 <= pathNodes <= |back| && v == back[pathNodes - 1]
      invariant v == srcNodeId ==> pathNodes == |back|
      decreases |back| - pathNodes
    {
      assert pathNodes < |back| ==> prevNodeIdx[back[pathNodes - 1]] == back[pathNodes];
      v := prevNodeIdx[v];
      if v == -1 { break; }
      pathNodes := pathNodes + 1;
    }
    assert pathNodes == |back|;
    var nodeIds, p;
    nodeIds, p, v := FillBack(prevNodeIdx, srcNodeId, dstNodeId, dropLast, pathNodes, back);
    if p == -1 && v != srcNodeId {
      return None;
    }
    assert p >= 0 && v == back[pathNodes - 1 - p] && v in back;
    if pathNodes >= 2 {
      nodeIds := nodeIds[0 := srcNodeId];
    }
    path := Some(nodeIds);
    assert nodeIds == if dropLast then NodesOf(srcNodeId, paths[dstNodeId])[..|paths[dstNodeId]|] else NodesOf(srcNodeId, paths[dstNodeId]);
  }
}
