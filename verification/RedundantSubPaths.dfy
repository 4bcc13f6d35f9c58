/**
 * Resilient routes: a shortest primary path to every destination, and for each of its nodes up to beta
 * redundant sub-paths that lead back to an upstream node of the primary path.
 */
module RedundantSubPaths {
  import opened Common
  import opened FibonacciForest
  import opened ShortestPaths
  import opened LltcGraph
  import opened RouteTiming
  import opened RouteGeneration

  // ------------------------------------------------------------- nodes and links of a path

  ghost function LinkIds(adj: Adjacency, nodeIds: seq<int>): set<int> {
    set i | 0 < i < |nodeIds| && 0 <= nodeIds[i] < |adj| && FindLink(adj[nodeIds[i]], nodeIds[i - 1]).Some? ::
      FindLink(adj[nodeIds[i]], nodeIds[i - 1]).value.linkId
  }

  ghost function ArcIds(p: seq<Arc>): set<int> {
    set i | 0 <= i < |p| :: p[i].id
  }

  /** A graph without self-loops and parallel links whose last node is spare, and whose link ids are below `base`. */
  ghost predicate Spare(adj: Adjacency, n: int, base: int) {
    0 <= n && |adj| == n + 1 && adj[n] == [] && Joined(adj, n) && IdsBelow(adj, n, base) && base >= 0
  }

  /** The link of an arc is found from both of its ends. */
  lemma ArcLink(adj: Adjacency, n: int, base: int, forbidden: set<int>, a: Arc)
    requires Spare(adj, n, base) && a in ArcsOf(adj, n, forbidden)
    ensures 0 <= a.from < n && 0 <= a.to < n && a.from != a.to && a.id !in forbidden && 0 <= a.id < base
    ensures FindLink(adj[a.from], a.to).Some? && FindLink(adj[a.to], a.from) == FindLink(adj[a.from], a.to)
    ensures ArcOf(FindLink(adj[a.from], a.to).value, a.from) == a
  {
    hide OnePerId;
    var u, e :| 0 <= u < n && e in adj[u] && e.linkId !in forbidden && a == ArcOf(e, u);
    FoundLink(adj, n, u, e);
    FoundLink(adj, n, GetLinkOpSide(e, u), e);
  }

  lemma FoundLink(adj: Adjacency, n: int, u: int, e: LltcLink)
    requires 0 <= u < n <= |adj| && Ends(adj, n) && OnePerPair(adj, n) && e in adj[u]
    ensures FindLink(adj[u], GetLinkOpSide(e, u)) == Some(e)
  {
    var v := GetLinkOpSide(e, u);
    var r := FindLink(adj[u], v);
    assert v != u && (e.nodeA == v || e.nodeB == v);
    assert r.Some? && r.value in adj[u];
    assert GetLinkOpSide(r.value, u) == v;
  }

  lemma SpareEnds(adj: Adjacency, n: int, base: int)
    requires Spare(adj, n, base)
    ensures Ends(adj, |adj|)
  {
  }

  /** Nodes below `n`, each joined to the next one. */
  ghost predicate Linked(adj: Adjacency, n: int, nodes: seq<int>) {
    && 0 <= n <= |adj|
    && (forall i :: 0 <= i < |nodes| ==> 0 <= nodes[i] < n)
    && (forall i :: 0 < i < |nodes| ==> FindLink(adj[nodes[i - 1]], nodes[i]).Some?)
  }

  lemma MoreLinked(adj: Adjacency, n: int, nodes: seq<int>, v: int)
    requires Linked(adj, n, nodes) && |nodes| >= 1 && 0 <= v < n && FindLink(adj[nodes[|nodes| - 1]], v).Some?
    ensures Linked(adj, n, nodes + [v])
  {
  }

  /** A walk goes from node to node over links that are not forbidden. */
  lemma {:induction false} WalkRoute(adj: Adjacency, n: int, base: int, forbidden: set<int>, s: int, p: seq<Arc>, t: int)
    requires Spare(adj, n, base) && IsWalk(ArcsOf(adj, n, forbidden), s, p, t) && 0 <= s < n
    ensures 0 <= t < n && NodesOf(s, p)[|p|] == t && Linked(adj, n, NodesOf(s, p))
    ensures LinkIds(adj, NodesOf(s, p)) == ArcIds(p) && IdsFree(ArcIds(p), forbidden, base)
  {
    hide Spare, ArcsOf, FindLink, IdsFree, LinkIds, ArcIds, Linked, ArcOf;
    SpareSize(adj, n, base);
    if p == [] {
      NoIds(adj, n, s, forbidden, base);
    } else {
      var a, p' := p[|p| - 1], p[..|p| - 1];
      WalkRoute(adj, n, base, forbidden, s, p', a.from);
      assert p' + [a] == p && NodesOf(s, p) == NodesOf(s, p') + [a.to];
      hide IsWalk, NodesOf;
      ArcLink(adj, n, base, forbidden, a);
      MoreLinked(adj, n, NodesOf(s, p'), a.to);
      LinkOfArc(FindLink(adj[a.from], a.to).value, a);
      MoreIds(adj, NodesOf(s, p'), a.to, p', a);
      MoreFree(ArcIds(p'), forbidden, base, a.id);
    }
  }

  ghost predicate IdsFree(ids: set<int>, forbidden: set<int>, base: int) {
    ids !! forbidden && forall id :: id in ids ==> 0 <= id < base
  }

  lemma NoIds(adj: Adjacency, n: int, s: int, forbidden: set<int>, base: int)
    requires 0 <= s < n <= |adj|
    ensures LinkIds(adj, [s]) == ArcIds([]) && IdsFree(ArcIds([]), forbidden, base) && Linked(adj, n, [s])
  {
  }

  lemma MoreFree(ids: set<int>, forbidden: set<int>, base: int, id: int)
    requires IdsFree(ids, forbidden, base) && id !in forbidden && 0 <= id < base
    ensures IdsFree(ids + {id}, forbidden, base)
  {
  }

  lemma SpareSize(adj: Adjacency, n: int, base: int)
    requires Spare(adj, n, base)
    ensures 0 <= n && |adj| == n + 1
  {
  }

  lemma LinkOfArc(e: LltcLink, a: Arc)
    requires ArcOf(e, a.from) == a
    ensures e.linkId == a.id && e.abDelayTotal == a.cost && GetLinkOpSide(e, a.from) == a.to
  {
  }

  lemma MoreIds(adj: Adjacency, nodes: seq<int>, v: int, p: seq<Arc>, a: Arc)
    requires |nodes| >= 1 && LinkIds(adj, nodes) == ArcIds(p) && 0 <= v < |adj| && FindLink(adj[v], nodes[|nodes| - 1]).Some?
    requires FindLink(adj[v], nodes[|nodes| - 1]).value.linkId == a.id
    ensures LinkIds(adj, nodes + [v]) == ArcIds(p + [a]) == ArcIds(p) + {a.id}
  {
    hide FindLink;
    var nodes', p' := nodes + [v], p + [a];
    assert nodes == nodes'[..|nodes|];
    assert nodes'[|nodes|] == v && nodes'[|nodes| - 1] == nodes[|nodes| - 1];
    assert LinkIds(adj, nodes') == LinkIds(adj, nodes) + {a.id};
    assert p'[|p|] == a && forall i :: 0 <= i < |p| ==> p'[i] == p[i];
    assert ArcIds(p') == ArcIds(p) + {a.id};
  }

  // ------------------------------------------------------------------ through the spare node

  /** No walk from `cur` to any of `ups` is cheaper than `q`. */
  ghost predicate BestDetour(arcs: set<Arc>, cur: int, ups: seq<int>, q: seq<Arc>) {
    && Simple(cur, q) && (exists t :: t in ups && IsWalk(arcs, cur, q, t))
    && (forall q', t :: t in ups && IsWalk(arcs, cur, q', t) ==> Cost(q) <= Cost(q'))
  }

  ghost predicate NoDetour(arcs: set<Arc>, cur: int, ups: seq<int>) {
    forall t :: t in ups ==> !Reachable(arcs, cur, t)
  }

  /** The arcs with the spare node: one more of cost 0 to it from each of `ids`, and their reverses. */
  ghost predicate Bridged(arcs: set<Arc>, arcs': set<Arc>, n: int, ids: seq<int>) {
    && arcs <= arcs'
    && (forall a :: a in arcs ==> a.from != n && a.to != n)
    && (forall t :: t in ids ==> t != n && exists id :: Arc(t, n, 0, id) in arcs')
    && (forall a :: a in arcs' && a.to == n ==> a.from in ids && a.cost == 0)
    && (forall a :: a in arcs' && a.from != n && a.to != n ==> a in arcs)
  }

  /** The links at `u` once the spare node is joined. */
  lemma VirtLinks(adj: Adjacency, adj': Adjacency, n: int, ids: seq<int>, base: int, u: int, e: LltcLink)
    requires Spare(adj, n, base) && VirtAt(adj, adj', n, ids, base) && 0 <= u < n
    ensures e in adj[u] ==> e in adj'[u] && 0 <= GetLinkOpSide(e, u) < n && 0 <= e.linkId < base
    ensures e in adj'[u] ==> e in adj[u] || (u in ids && ArcOf(e, u) == Arc(u, n, 0, e.linkId))
  {
    hide NoDup, OnePerPair, OnePerId;
    if u in ids {
      var i := IndexOf(ids, u);
      assert adj'[ids[i]] == adj[ids[i]] + [VirtLink(base + i, ids[i], n)];
    }
  }

  lemma VirtLinksSpare(adj: Adjacency, adj': Adjacency, n: int, ids: seq<int>, base: int, e: LltcLink)
    requires Spare(adj, n, base) && VirtAt(adj, adj', n, ids, base) && e in adj'[n]
    ensures ArcOf(e, n).to != n && ArcOf(e, n).cost == 0
  {
  }

  lemma VirtArc(adj: Adjacency, adj': Adjacency, n: int, ids: seq<int>, base: int, forbidden: set<int>, t: int)
    requires Spare(adj, n, base) && VirtAt(adj, adj', n, ids, base) && t in ids && forall f :: f in forbidden ==> f < base
    ensures 0 <= t < n && exists id :: Arc(t, n, 0, id) in ArcsOf(adj', n + 1, forbidden)
  {
    hide NoDup, Joined;
    var i := IndexOf(ids, t);
    var e := VirtLink(base + i, ids[i], n);
    assert adj'[ids[i]] == adj[ids[i]] + [e];
    assert e in adj'[t] && e.linkId !in forbidden;
    assert ArcOf(e, t) == Arc(t, n, 0, base + i);
  }

  lemma ArcKept(adj: Adjacency, adj': Adjacency, n: int, ids: seq<int>, base: int, forbidden: set<int>, a: Arc)
    requires Spare(adj, n, base) && VirtAt(adj, adj', n, ids, base) && 0 <= n < |adj| == |adj'| && a in ArcsOf(adj, n, forbidden)
    ensures a in ArcsOf(adj', n + 1, forbidden) && a.from != n && a.to != n
  {
    hide Spare, VirtAt, GetLinkOpSide;
    var u, e :| 0 <= u < n && e in adj[u] && e.linkId !in forbidden && a == ArcOf(e, u);
    VirtLinks(adj, adj', n, ids, base, u, e);
  }

  lemma ArcOrigin(adj: Adjacency, adj': Adjacency, n: int, ids: seq<int>, base: int, forbidden: set<int>, a: Arc)
    requires Spare(adj, n, base) && VirtAt(adj, adj', n, ids, base) && 0 <= n < |adj| == |adj'| && a in ArcsOf(adj', n + 1, forbidden)
    ensures a.to == n ==> a.from in ids && a.cost == 0
    ensures a.from == n ==> a.cost == 0
    ensures a.from != n && a.to != n ==> a in ArcsOf(adj, n, forbidden)
  {
    hide Spare, VirtAt, GetLinkOpSide;
    var u, e :| 0 <= u < n + 1 && e in adj'[u] && e.linkId !in forbidden && a == ArcOf(e, u);
    if u < n {
      VirtLinks(adj, adj', n, ids, base, u, e);
    } else {
      VirtLinksSpare(adj, adj', n, ids, base, e);
    }
  }

  lemma VirtBridged(adj: Adjacency, adj': Adjacency, n: int, ids: seq<int>, base: int, forbidden: set<int>)
    requires Spare(adj, n, base) && VirtAt(adj, adj', n, ids, base) && forall f :: f in forbidden ==> f < base
    ensures 0 <= n < |adj| == |adj'| && Bridged(ArcsOf(adj, n, forbidden), ArcsOf(adj', n + 1, forbidden), n, ids)
  {
    SpareSize(adj, n, base);
    assert |adj'| == |adj|;
    hide *;
    forall a | a in ArcsOf(adj, n, forbidden) ensures a in ArcsOf(adj', n + 1, forbidden) && a.from != n && a.to != n {
      ArcKept(adj, adj', n, ids, base, forbidden, a);
    }
    forall t | t in ids ensures t != n && exists id :: Arc(t, n, 0, id) in ArcsOf(adj', n + 1, forbidden) {
      VirtArc(adj, adj', n, ids, base, forbidden, t);
    }
    forall a | a in ArcsOf(adj', n + 1, forbidden)
      ensures a.to == n ==> a.from in ids && a.cost == 0
      ensures a.from != n && a.to != n ==> a in ArcsOf(adj, n, forbidden)
    {
      ArcOrigin(adj, adj', n, ids, base, forbidden, a);
    }
    BridgedWhen(ArcsOf(adj, n, forbidden), ArcsOf(adj', n + 1, forbidden), n, ids);
  }

  lemma BridgedWhen(arcs: set<Arc>, arcs': set<Arc>, n: int, ids: seq<int>)
    requires forall a :: a in arcs ==> a in arcs' && a.from != n && a.to != n
    requires forall t :: t in ids ==> t != n && exists id :: Arc(t, n, 0, id) in arcs'
    requires forall a :: a in arcs' && a.to == n ==> a.from in ids && a.cost == 0
    requires forall a :: a in arcs' && a.from != n && a.to != n ==> a in arcs
    ensures Bridged(arcs, arcs', n, ids)
  {
  }

  /** A walk that stays clear of the spare node is one of the original graph. */
  lemma {:induction false} WalkClear(arcs: set<Arc>, arcs': set<Arc>, n: int, ids: seq<int>, s: int, p: seq<Arc>, t: int)
    requires Bridged(arcs, arcs', n, ids) && IsWalk(arcs', s, p, t) && n !in NodesOf(s, p)
    ensures IsWalk(arcs, s, p, t) && t in NodesOf(s, p)
  {
    hide Bridged;
    if p != [] {
      var a, p' := p[|p| - 1], p[..|p| - 1];
      assert forall x :: x in NodesOf(s, p') ==> x in NodesOf(s, p);
      assert NodesOf(s, p)[|p|] == a.to;
      WalkClear(arcs, arcs', n, ids, s, p', a.from);
      assert a in arcs by { ClearArc(arcs, arcs', n, ids, a); }
    } else {
      assert NodesOf(s, p)[0] == s;
    }
  }

  lemma ClearArc(arcs: set<Arc>, arcs': set<Arc>, n: int, ids: seq<int>, a: Arc)
    requires Bridged(arcs, arcs', n, ids) && a in arcs' && a.from != n && a.to != n
    ensures a in arcs
  {
  }

  lemma {:induction false} WalkMore(arcs: set<Arc>, arcs': set<Arc>, s: int, p: seq<Arc>, t: int)
    requires arcs <= arcs' && IsWalk(arcs, s, p, t)
    ensures IsWalk(arcs', s, p, t)
  {
    if p == [] {
    } else {
      WalkMore(arcs, arcs', s, p[..|p| - 1], p[|p| - 1].from);
    }
  }

  /** A walk to one of `ids` leads on to the spare node at no cost. */
  lemma DetourExtends(arcs: set<Arc>, arcs': set<Arc>, n: int, ids: seq<int>, cur: int, q: seq<Arc>, t: int) returns (p: seq<Arc>)
    requires Bridged(arcs, arcs', n, ids) && t in ids && IsWalk(arcs, cur, q, t)
    ensures IsWalk(arcs', cur, p, n) && Cost(p) == Cost(q)
  {
    var id :| Arc(t, n, 0, id) in arcs';
    p := q + [Arc(t, n, 0, id)];
    WalkMore(arcs, arcs', cur, q, t);
    Extend(arcs', cur, q, Arc(t, n, 0, id));
  }

  lemma Repeated<T>(nodes: seq<T>, x: T)
    requires x in nodes
    ensures !NoDup(nodes + [x])
  {
    var i := IndexOf(nodes, x);
    assert (nodes + [x])[i] == (nodes + [x])[|nodes|];
  }

  /** Without its last arc, a shortest path to the spare node is a best detour. */
  lemma DetourFound(arcs: set<Arc>, arcs': set<Arc>, n: int, ids: seq<int>, cur: int, p: seq<Arc>)
    requires Bridged(arcs, arcs', n, ids) && cur != n && Shortest(arcs', cur, p, n) && Simple(cur, p)
    ensures p != [] && BestDetour(arcs, cur, ids, p[..|p| - 1]) && NodesOf(cur, p[..|p| - 1]) == NodesOf(cur, p)[..|p|]
  {
    assert IsWalk(arcs', cur, p, n);
    var a, q := p[|p| - 1], p[..|p| - 1];
    assert NodesOf(cur, p) == NodesOf(cur, q) + [n];
    assert n !in NodesOf(cur, q) by {
      if n in NodesOf(cur, q) {
        Repeated(NodesOf(cur, q), n);
      }
    }
    assert a.from in ids && a.cost == 0;
    assert Cost(p) == Cost(q);
    assert Simple(cur, q) by {
      forall i, j | 0 <= i < j < |NodesOf(cur, q)| ensures NodesOf(cur, q)[i] != NodesOf(cur, q)[j] {
        assert NodesOf(cur, p)[i] != NodesOf(cur, p)[j];
      }
    }
    WalkClear(arcs, arcs', n, ids, cur, q, a.from);
    hide IsWalk, NodesOf, Simple, Cost;
    forall q', t | t in ids && IsWalk(arcs, cur, q', t) ensures Cost(q) <= Cost(q') {
      var p' := DetourExtends(arcs, arcs', n, ids, cur, q', t);
    }
  }

  lemma NoDetourFound(arcs: set<Arc>, arcs': set<Arc>, n: int, ids: seq<int>, cur: int)
    requires Bridged(arcs, arcs', n, ids) && !Reachable(arcs', cur, n)
    ensures NoDetour(arcs, cur, ids)
  {
    hide IsWalk, Bridged, Cost;
    forall q, t | t in ids && IsWalk(arcs, cur, q, t) ensures false {
      var p := DetourExtends(arcs, arcs', n, ids, cur, q, t);
    }
  }

  // ----------------------------------------------------------------- sums that must fit

  /** Path sums fit an `int` in the graph and in every graph made from it by joining the spare node. */
  ghost predicate SumsAlwaysFit(adj: Adjacency, n: int, base: int) {
    && 0 <= n < |adj|
    && SumsFitFromAll(ArcsOf(adj, n, {}), n)
    && forall ids :: Neighbours(ids, n) ==> SumsFitFromAll(ArcsOf(WithVirt(adj, n, ids, base), n + 1, {}), n)
  }

  ghost predicate SumsFitFromAll(arcs: set<Arc>, n: int) {
    forall s :: 0 <= s < n ==> SumsFit(arcs, s)
  }

  /** No link has a delay above `most`. */
  ghost predicate DelaysWithin(adj: Adjacency, n: int, most: nat) {
    0 <= n <= |adj| && forall u, e {:trigger e in adj[u]} :: 0 <= u < n && e in adj[u] ==> e.abDelayTotal <= most
  }

  lemma ArcsWithin(adj: Adjacency, n: int, most: nat, a: Arc)
    requires DelaysWithin(adj, n, most) && Ends(adj, n) && a in ArcsOf(adj, n, {})
    ensures 0 <= a.to < n && a.cost <= most
  {
  }

  lemma VirtWithin(adj: Adjacency, n: int, base: int, ids: seq<int>, most: nat, a: Arc)
    requires Spare(adj, n, base) && Neighbours(ids, n) && DelaysWithin(adj, n, most)
    requires |WithVirt(adj, n, ids, base)| == n + 1 && a in ArcsOf(WithVirt(adj, n, ids, base), n + 1, {})
    ensures 0 <= a.to < n + 1 && a.cost <= most
  {
    hide DelaysWithin, WithVirt, VirtAt;
    var adj' := WithVirt(adj, n, ids, base);
    SpareVirt(adj, n, base, ids);
    ArcOrigin(adj, adj', n, ids, base, {}, a);
    if a.from != n && a.to != n {
      ArcsWithin(adj, n, most, a);
    } else {
      assert 0 <= a.to < n + 1;
    }
  }

  /** Path sums always fit if n times the largest delay does. */
  lemma SumsAlwaysFitWhen(adj: Adjacency, n: int, base: int, most: nat)
    requires Spare(adj, n, base) && DelaysWithin(adj, n, most) && most * n < INT_MAX
    ensures SumsAlwaysFit(adj, n, base)
  {
    SpareSize(adj, n, base);
    SpareParts(adj, n, base);
    assert Ends(adj, n);
    hide Spare, DelaysWithin, ArcsOf, SumsFit, WithVirt, Ends, Joined;
    forall s | 0 <= s < n ensures SumsFit(ArcsOf(adj, n, {}), s) {
      forall a | a in ArcsOf(adj, n, {}) ensures 0 <= a.to < n && a.cost <= most {
        ArcsWithin(adj, n, most, a);
      }
      assert most * (n - 1) <= most * n;
      SumsFitWhen(ArcsOf(adj, n, {}), s, n, most);
    }
    forall ids | Neighbours(ids, n) ensures SumsFitFromAll(ArcsOf(WithVirt(adj, n, ids, base), n + 1, {}), n) {
      NeighboursWithin(ids, n);
      var arcs := ArcsOf(WithVirt(adj, n, ids, base), n + 1, {});
      forall a | a in arcs ensures 0 <= a.to < n + 1 && a.cost <= most {
        VirtWithin(adj, n, base, ids, most, a);
      }
      forall s | 0 <= s < n ensures SumsFit(arcs, s) {
        SumsFitWhen(arcs, s, n + 1, most);
      }
    }
  }

  lemma SumsFewer(adj: Adjacency, n: int, forbidden: set<int>, s: int)
    requires 0 <= n <= |adj| && SumsFit(ArcsOf(adj, n, {}), s)
    ensures SumsFit(ArcsOf(adj, n, forbidden), s)
  {
    hide IsWalk, Simple, Cost;
    var arcs, arcs' := ArcsOf(adj, n, forbidden), ArcsOf(adj, n, {});
    assert arcs <= arcs';
    forall p, t | IsWalk(arcs, s, p, t) && Simple(s, p) ensures Cost(p) < INT_MAX {
      WalkMore(arcs, arcs', s, p, t);
    }
  }

  lemma VirtDelays(adj: Adjacency, adj': Adjacency, n: int, ids: seq<int>, base: int)
    requires Spare(adj, n, base) && VirtAt(adj, adj', n, ids, base) && DelaysFit(adj, n)
    ensures DelaysFit(adj', n + 1)
  {
  }

  lemma VirtSize(adj: Adjacency, adj': Adjacency, n: int, ids: seq<int>, base: int)
    requires VirtAt(adj, adj', n, ids, base)
    ensures |adj'| == |adj| && Neighbours(ids, n)
  {
  }

  // ---------------------------------------------------------------- links found by nodes

  /** Two graphs have the same links between the first `n` nodes. */
  ghost predicate SameLinks(adj: Adjacency, adj': Adjacency, n: int) {
    0 <= n <= |adj| == |adj'| && forall u, v :: 0 <= u < n && 0 <= v < n && u != v ==> FindLink(adj'[u], v) == FindLink(adj[u], v)
  }

  lemma {:induction false} FindAppended(links: seq<LltcLink>, e: LltcLink, v: int)
    requires e.nodeA != v && e.nodeB != v
    ensures FindLink(links + [e], v) == FindLink(links, v)
  {
    if links == [] {
    } else {
      assert (links + [e])[1..] == links[1..] + [e];
      FindAppended(links[1..], e, v);
    }
  }

  lemma VirtSameLinks(adj: Adjacency, adj': Adjacency, n: int, ids: seq<int>, base: int)
    requires Spare(adj, n, base) && VirtAt(adj, adj', n, ids, base)
    ensures SameLinks(adj, adj', n)
  {
    hide NoDup, Joined, IdsBelow, FindLink;
    forall u, v | 0 <= u < n && 0 <= v < n && u != v ensures FindLink(adj'[u], v) == FindLink(adj[u], v) {
      if u in ids {
        var i := IndexOf(ids, u);
        var e := VirtLink(base + i, ids[i], n);
        assert adj'[ids[i]] == adj[ids[i]] + [e];
        FindAppended(adj[u], e, v);
      }
    }
  }

  ghost function DownDelay(adj: Adjacency, nodeIds: seq<int>, i: nat): int
    requires Route(adj, nodeIds) && i < |nodeIds|
  {
    if i == 0 then 0 else DownDelay(adj, nodeIds, i - 1) + GetLinkDelayTotal(LinkTo(adj, nodeIds, i), nodeIds[i], nodeIds[i - 1])
  }

  ghost function BothWays(adj: Adjacency, nodeIds: seq<int>, i: nat): real
    requires Route(adj, nodeIds) && i < |nodeIds|
  {
    if i == 0 then 1.0
    else BothWays(adj, nodeIds, i - 1) * (LinkTo(adj, nodeIds, i).abRelia * LinkTo(adj, nodeIds, i).baRelia)
  }

  /** What is recorded of a sub-path: its delays both ways, and the chance that every one of the requests over it fails. */
  ghost predicate RspFields(adj: Adjacency, rsp: RedundantSubPath, numRetransRequests: nat) {
    && Route(adj, rsp.nodeIds)
    && var last := |rsp.nodeIds| - 1;
    && rsp.linkUpDelay == PathDelay(adj, rsp.nodeIds, last) && rsp.linkDownDelay == DownDelay(adj, rsp.nodeIds, last)
    && rsp.dataDeliveryLossRate == Pow(1.0 - BothWays(adj, rsp.nodeIds, last), numRetransRequests)
    && rsp.retransDelayInSingleTime == rsp.linkUpDelay + rsp.linkDownDelay
    && rsp.retransDelayInMultiTimes == rsp.retransDelayInSingleTime * numRetransRequests
  }

  method NewRedundantSubPath(g: LltcGraph, nodeIds: seq<int>, numRetransRequests: nat, ghost adj: Adjacency, ghost n: int)
    returns (rsp: RedundantSubPath)
    requires Route(adj, nodeIds) && SameLinks(adj, g.eLinks, n) && Linked(adj, n, nodeIds) && numRetransRequests >= 1 && |nodeIds| >= 1
    ensures rsp.nodeIds == nodeIds && RspFields(adj, rsp, numRetransRequests)
  {
    hide Route, FindLink, GetLinkDelayTotal, Pow;
    var linkUpDelay, linkDownDelay, dataDeliveryLossRate := 0, 0, 1.0;
    for m := 1 to |nodeIds|
      invariant linkUpDelay == PathDelay(adj, nodeIds, m - 1) && linkDownDelay == DownDelay(adj, nodeIds, m - 1)
      invariant dataDeliveryLossRate == BothWays(adj, nodeIds, m - 1)
    {
      var nodeA, nodeB := nodeIds[m - 1], nodeIds[m];
      RouteLink(adj, nodeIds, m);
      var l := g.GetLinkByNodeIds(nodeA, nodeB);
      linkUpDelay := linkUpDelay + GetLinkDelayTotal(l.value, nodeA, nodeB);
      linkDownDelay := linkDownDelay + GetLinkDelayTotal(l.value, nodeB, nodeA);
      dataDeliveryLossRate := dataDeliveryLossRate * (l.value.abRelia * l.value.baRelia);
    }
    dataDeliveryLossRate := Pow(1.0 - dataDeliveryLossRate, numRetransRequests);
    var retransDelayInMultiTimes := (linkUpDelay + linkDownDelay) * numRetransRequests;
    Quotient(linkUpDelay + linkDownDelay, numRetransRequests);
    rsp := RedundantSubPath(nodeIds, linkUpDelay, linkDownDelay, dataDeliveryLossRate, retransDelayInMultiTimes,
                            retransDelayInMultiTimes / numRetransRequests);
  }

  lemma Quotient(x: int, n: int)
    requires n >= 1
    ensures x * n / n == x
  {
    var q, r := x * n / n, x * n % n;
    assert (x - q) * n == r;
    assert x - q >= 1 ==> (x - q) * n >= n;
    assert x - q <= -1 ==> (x - q) * n <= -n;
  }

  method AddPathNodeIdsArrayToLinkIdsSet(g: LltcGraph, pathNodeIds: seq<int>, linkIdSet: set<int>, ghost adj: Adjacency, ghost n: int) returns (r: set<int>)
    requires Route(adj, pathNodeIds) && SameLinks(adj, g.eLinks, n) && Linked(adj, n, pathNodeIds)
    requires forall i :: 0 < i < |pathNodeIds| ==> FindLink(adj[pathNodeIds[i]], pathNodeIds[i - 1]).Some?
    ensures r == linkIdSet + LinkIds(adj, pathNodeIds)
  {
    hide *;
    r := linkIdSet;
    NoLinkIds(adj, pathNodeIds);
    for i := 1 to |pathNodeIds|
      invariant r == linkIdSet + LinkIds(adj, pathNodeIds[..i])
    {
      BackLink(adj, g.eLinks, n, pathNodeIds, i);
      var l := g.GetLinkByNodeIds(pathNodeIds[i], pathNodeIds[i - 1]);
      LinkIdsStep(adj, pathNodeIds, i);
      r := r + {l.value.linkId};
    }
    assert pathNodeIds[..|pathNodeIds|] == pathNodeIds;
  }

  lemma NoLinkIds(adj: Adjacency, nodeIds: seq<int>)
    requires Route(adj, nodeIds)
    ensures |nodeIds| >= 1 && LinkIds(adj, nodeIds[..1]) == {}
  {
  }

  lemma BackLink(adj: Adjacency, adj': Adjacency, n: int, nodeIds: seq<int>, i: int)
    requires Route(adj, nodeIds) && SameLinks(adj, adj', n) && Linked(adj, n, nodeIds) && 0 < i < |nodeIds|
    ensures 0 <= nodeIds[i] < |adj| == |adj'| && FindLink(adj'[nodeIds[i]], nodeIds[i - 1]) == FindLink(adj[nodeIds[i]], nodeIds[i - 1])
  {
  }

  lemma LinkIdsStep(adj: Adjacency, nodeIds: seq<int>, i: int)
    requires 0 < i < |nodeIds| && 0 <= nodeIds[i] < |adj| && FindLink(adj[nodeIds[i]], nodeIds[i - 1]).Some?
    ensures LinkIds(adj, nodeIds[..i + 1]) == LinkIds(adj, nodeIds[..i]) + {FindLink(adj[nodeIds[i]], nodeIds[i - 1]).value.linkId}
  {
  }

  // ------------------------------------------------------------------ the greedy choice

  /** `nodeIds` are the nodes of a best way from `cur` to one of `ups` over links that are not forbidden. */
  ghost predicate BestSubPath(adj: Adjacency, n: int, cur: int, ups: seq<int>, forbidden: set<int>, nodeIds: seq<int>) {
    0 <= n <= |adj| && exists q :: BestDetour(ArcsOf(adj, n, forbidden), cur, ups, q) && nodeIds == NodesOf(cur, q)
  }

  ghost function UsedIds(adj: Adjacency, rsps: seq<RedundantSubPath>): set<int> {
    if rsps == [] then {} else UsedIds(adj, rsps[..|rsps| - 1]) + LinkIds(adj, rsps[|rsps| - 1].nodeIds)
  }

  /** Each sub-path is a best one among those that use neither the primary path nor an earlier sub-path. */
  ghost predicate Greedy(adj: Adjacency, n: int, cur: int, ups: seq<int>, ppIds: set<int>, rsps: seq<RedundantSubPath>, numRetransRequests: nat) {
    forall k :: 0 <= k < |rsps| ==>
      BestSubPath(adj, n, cur, ups, ppIds + UsedIds(adj, rsps[..k]), rsps[k].nodeIds) && RspFields(adj, rsps[k], numRetransRequests)
  }

  /** At most beta sub-paths, and fewer only if no further one exists. */
  ghost predicate SubPathsOf(adj: Adjacency, n: int, cur: int, ups: seq<int>, ppIds: set<int>, beta: int, numRetransRequests: nat,
                             rsps: seq<RedundantSubPath>) {
    && 0 <= n <= |adj| && Greedy(adj, n, cur, ups, ppIds, rsps, numRetransRequests)
    && |rsps| <= (if beta > 0 then beta else 0)
    && (|rsps| < beta ==> NoDetour(ArcsOf(adj, n, ppIds + UsedIds(adj, rsps)), cur, ups))
  }

  lemma SubPathRoute(adj: Adjacency, n: int, base: int, cur: int, ups: seq<int>, forbidden: set<int>, nodeIds: seq<int>)
    requires Spare(adj, n, base) && BestSubPath(adj, n, cur, ups, forbidden, nodeIds) && 0 <= cur < n
    ensures Route(adj, nodeIds) && Linked(adj, n, nodeIds) && nodeIds[0] == cur && nodeIds[|nodeIds| - 1] in ups
    ensures IdsFree(LinkIds(adj, nodeIds), forbidden, base)
    ensures forall i :: 0 < i < |nodeIds| ==> FindLink(adj[nodeIds[i]], nodeIds[i - 1]).Some?
  {
    hide Spare, ArcsOf, IsWalk, NodesOf, Cost, LinkIds, ArcIds, IdsFree, Ends, FindLink;
    SpareSize(adj, n, base);
    SpareEnds(adj, n, base);
    var q :| BestDetour(ArcsOf(adj, n, forbidden), cur, ups, q) && nodeIds == NodesOf(cur, q);
    var t :| t in ups && IsWalk(ArcsOf(adj, n, forbidden), cur, q, t);
    WalkRoute(adj, n, base, forbidden, cur, q, t);
    forall i | 0 < i < |nodeIds| ensures FindLink(adj[nodeIds[i]], nodeIds[i - 1]).Some? {
      FoundBack(adj, n, base, nodeIds[i - 1], nodeIds[i]);
    }
  }

  lemma FoundBack(adj: Adjacency, n: int, base: int, u: int, v: int)
    requires Spare(adj, n, base) && 0 <= u < n && 0 <= v < n && FindLink(adj[u], v).Some?
    ensures FindLink(adj[v], u).Some?
  {
    hide OnePerPair, OnePerId, IdsBelow;
    var e := FindLink(adj[u], v).value;
    assert e in adj[u];
    if u == v {
    } else {
      assert GetLinkOpSide(e, u) == v;
      assert e in adj[v];
    }
  }

  /** The search through the spare node finds a best sub-path, or there is none. */
  lemma SearchedSubPath(adj: Adjacency, n: int, base: int, cur: int, ups: seq<int>, forbidden: set<int>, adj': Adjacency)
    requires Spare(adj, n, base) && Neighbours(ups, n) && adj' == WithVirt(adj, n, ups, base) && 0 <= cur < n
    requires forall f :: f in forbidden ==> f < base
    ensures 0 <= n < |adj'|
    ensures !Reachable(ArcsOf(adj', n + 1, forbidden), cur, n) ==> NoDetour(ArcsOf(adj, n, forbidden), cur, ups)
    ensures forall p :: Shortest(ArcsOf(adj', n + 1, forbidden), cur, p, n) && Simple(cur, p) ==>
              BestSubPath(adj, n, cur, ups, forbidden, NodesOf(cur, p)[..|p|])
  {
    hide Spare, ArcsOf, IsWalk, NodesOf, Cost, Simple, VirtAt, Bridged, NoDetour, Shortest, Reachable;
    SpareSize(adj, n, base);
    SpareVirt(adj, n, base, ups);
    VirtSize(adj, adj', n, ups, base);
    VirtBridged(adj, adj', n, ups, base, forbidden);
    var arcs, arcs' := ArcsOf(adj, n, forbidden), ArcsOf(adj', n + 1, forbidden);
    if !Reachable(arcs', cur, n) {
      NoDetourFound(arcs, arcs', n, ups, cur);
    }
    forall p | Shortest(arcs', cur, p, n) && Simple(cur, p) ensures BestSubPath(adj, n, cur, ups, forbidden, NodesOf(cur, p)[..|p|]) {
      DetourFound(arcs, arcs', n, ups, cur, p);
    }
  }

  lemma SpareVirt(adj: Adjacency, n: int, base: int, ups: seq<int>)
    requires Spare(adj, n, base) && Neighbours(ups, n)
    ensures VirtAt(adj, WithVirt(adj, n, ups, base), n, ups, base) && Ends(WithVirt(adj, n, ups, base), n + 1)
  {
    hide NoDup, VirtAt, WithVirt;
    WithVirtAt(adj, n, ups, base);
    WithVirtJoined(adj, n, ups, base);
  }

  ghost predicate Ready(g: LltcGraph, adj: Adjacency, n: int)
    reads g
  {
    g.Valid() && g.nNodes == n && g.eLinks == adj && g.maxVirtLinkId == g.maxLinkId
  }

  lemma ReadySpare(g: LltcGraph, adj: Adjacency, n: int)
    ensures Ready(g, adj, n) ==> Spare(adj, n, g.maxLinkId) && 0 <= n && |adj| == n + 1
    ensures Ready(g, adj, n) <==> g.Valid() && g.nNodes == n && g.eLinks == adj && g.maxVirtLinkId == g.maxLinkId
  {
  }

  lemma SpareParts(adj: Adjacency, n: int, base: int)
    requires Spare(adj, n, base)
    ensures 0 <= n && |adj| == n + 1 && adj[n] == [] && Joined(adj, n) && IdsBelow(adj, n, base) && base >= 0
  {
  }

  /** One more sub-path for `curNode`, found through the spare node, and its links added to those in use. */
  method NextSubPath(g: LltcGraph, curNode: int, prevNodeIdsInPP: seq<int>, invalidLinksInPP: set<int>, invalidLinksInRSPs: set<int>,
                     numRetransRequests: nat, ghost adj: Adjacency, ghost n: int)
    returns (r: Option<(RedundantSubPath, set<int>)>)
    requires Ready(g, adj, n) && 0 <= curNode < n < INT_MAX && |adj| == n + 1 && Neighbours(prevNodeIdsInPP, n) && DelaysFit(adj, n)
    requires SumsAlwaysFit(adj, n, g.maxLinkId) && numRetransRequests >= 1
    requires forall f :: f in invalidLinksInPP + invalidLinksInRSPs ==> f < g.maxLinkId
    modifies g`eLinks, g`iLinks, g`maxVirtLinkId
    ensures Ready(g, adj, n)
    ensures r.None? ==> NoDetour(ArcsOf(adj, n, invalidLinksInPP + invalidLinksInRSPs), curNode, prevNodeIdsInPP)
    ensures r.Some? ==> BestSubPath(adj, n, curNode, prevNodeIdsInPP, invalidLinksInPP + invalidLinksInRSPs, r.value.0.nodeIds)
    ensures r.Some? ==> RspFields(adj, r.value.0, numRetransRequests) && r.value.1 == invalidLinksInRSPs + LinkIds(adj, r.value.0.nodeIds)
    ensures r.Some? ==> forall f :: f in r.value.1 ==> f < g.maxLinkId
  {
    hide *;
    ReadySpare(g, adj, n);
    ghost var base := g.maxLinkId;
    SpareParts(adj, n, base);
    NeighboursWithin(prevNodeIdsInPP, n);
    var virDstNode := g.AddVirtNode(prevNodeIdsInPP);
    ghost var adj', forbidden := g.eLinks, invalidLinksInPP + invalidLinksInRSPs;
    VirtReady(adj, n, base, prevNodeIdsInPP, adj', curNode, forbidden);
    ghost var arcs' := ArcsOf(adj', n + 1, forbidden);
    var rspPrevNodeIdx, paths, order := GenPathDijkstra(g, g.nNodes + 1, curNode, invalidLinksInPP, invalidLinksInRSPs);
    var rspPath := ConvertPrevToPath(rspPrevNodeIdx, curNode, virDstNode, true, arcs', paths, order);
    SearchedSubPath(adj, n, base, curNode, prevNodeIdsInPP, forbidden, adj');
    r := None;
    if rspPath.Some? {
      SubPathRoute(adj, n, base, curNode, prevNodeIdsInPP, forbidden, rspPath.value);
      NotEmpty(adj, rspPath.value);
      var rsp := NewRedundantSubPath(g, rspPath.value, numRetransRequests, adj, n);
      var ids := AddPathNodeIdsArrayToLinkIdsSet(g, rspPath.value, invalidLinksInRSPs, adj, n);
      FreeBelow(LinkIds(adj, rspPath.value), forbidden, base);
      r := Some((rsp, ids));
    }
    g.RemoveVirtNode(adj, prevNodeIdsInPP);
    ReadySpare(g, adj, n);
  }

  lemma NeighboursWithin(ids: seq<int>, n: int)
    requires Neighbours(ids, n)
    ensures forall i :: 0 <= i < |ids| ==> 0 <= ids[i] < n
  {
  }

  lemma NotEmpty(adj: Adjacency, nodeIds: seq<int>)
    requires Route(adj, nodeIds)
    ensures |nodeIds| >= 1
  {
  }

  lemma FreeBelow(ids: set<int>, forbidden: set<int>, base: int)
    requires IdsFree(ids, forbidden, base)
    ensures forall f :: f in ids ==> f < base
  {
  }

  /** What the search and the look-ups need of the graph once the spare node is joined. */
  lemma VirtReady(adj: Adjacency, n: int, base: int, ups: seq<int>, adj': Adjacency, cur: int, forbidden: set<int>)
    requires Spare(adj, n, base) && Neighbours(ups, n) && adj' == WithVirt(adj, n, ups, base) && DelaysFit(adj, n)
    requires SumsAlwaysFit(adj, n, base) && 0 <= cur < n
    ensures |adj'| == n + 1 && Ends(adj', n + 1) && DelaysFit(adj', n + 1) && SameLinks(adj, adj', n)
    ensures SumsFit(ArcsOf(adj', n + 1, forbidden), cur)
  {
    hide Spare, Neighbours, DelaysFit, Ends, VirtAt, SameLinks, SumsFit, ArcsOf;
    SpareSize(adj, n, base);
    SpareVirt(adj, n, base, ups);
    VirtSize(adj, adj', n, ups, base);
    VirtDelays(adj, adj', n, ups, base);
    VirtSameLinks(adj, adj', n, ups, base);
    NeighboursWithin(ups, n);
    assert SumsFitFromAll(ArcsOf(WithVirt(adj, n, ups, base), n + 1, {}), n);
    SumsFewer(adj', n + 1, forbidden, cur);
  }

  /** The sub-paths of one node of the primary path; the graph ends exactly as it began. */
  method SubPathsAt(g: LltcGraph, curNode: int, prevNodeIdsInPP: seq<int>, invalidLinksInPP: set<int>, beta: int, numRetransRequests: nat,
                    ghost adj: Adjacency, ghost n: int)
    returns (rsps: seq<RedundantSubPath>)
    requires Ready(g, adj, n) && 0 <= curNode < n < INT_MAX && Neighbours(prevNodeIdsInPP, n) && DelaysFit(adj, n)
    requires SumsAlwaysFit(adj, n, g.maxLinkId) && numRetransRequests >= 1 && forall f :: f in invalidLinksInPP ==> f < g.maxLinkId
    modifies g`eLinks, g`iLinks, g`maxVirtLinkId
    ensures Ready(g, adj, n)
    ensures SubPathsOf(adj, n, curNode, prevNodeIdsInPP, invalidLinksInPP, beta, numRetransRequests, rsps)
  {
    hide *;
    rsps := [];
    var invalidLinksInRSPs: set<int> := {};
    var k := 0;
    ReadySpare(g, adj, n);
    SpareSize(adj, n, g.maxLinkId);
    NoSubPathsYet(adj, n, curNode, prevNodeIdsInPP, invalidLinksInPP, numRetransRequests, g.maxLinkId);
    while k < beta
      invariant Ready(g, adj, n) && 0 <= k && k == |rsps| <= (if beta > 0 then beta else 0)
      invariant invalidLinksInRSPs == UsedIds(adj, rsps) && forall f :: f in invalidLinksInRSPs ==> f < g.maxLinkId
      invariant Greedy(adj, n, curNode, prevNodeIdsInPP, invalidLinksInPP, rsps, numRetransRequests)
    {
      var rsp := NextSubPath(g, curNode, prevNodeIdsInPP, invalidLinksInPP, invalidLinksInRSPs, numRetransRequests, adj, n);
      if rsp.None? {
        assert NoDetour(ArcsOf(adj, n, invalidLinksInPP + UsedIds(adj, rsps)), curNode, prevNodeIdsInPP);
        break;
      }
      MoreGreedy(adj, n, g.maxLinkId, curNode, prevNodeIdsInPP, invalidLinksInPP, rsps, rsp.value.0, numRetransRequests);
      rsps := rsps + [rsp.value.0];
      invalidLinksInRSPs := rsp.value.1;
      k := k + 1;
    }
    Chosen(adj, n, curNode, prevNodeIdsInPP, invalidLinksInPP, beta, numRetransRequests, rsps);
  }

  lemma Chosen(adj: Adjacency, n: int, cur: int, ups: seq<int>, ppIds: set<int>, beta: int, numRetransRequests: nat, rsps: seq<RedundantSubPath>)
    requires 0 <= n <= |adj| && Greedy(adj, n, cur, ups, ppIds, rsps, numRetransRequests)
    requires |rsps| <= (if beta > 0 then beta else 0)
    requires |rsps| < beta ==> NoDetour(ArcsOf(adj, n, ppIds + UsedIds(adj, rsps)), cur, ups)
    ensures SubPathsOf(adj, n, cur, ups, ppIds, beta, numRetransRequests, rsps)
  {
  }

  lemma NoSubPathsYet(adj: Adjacency, n: int, cur: int, ups: seq<int>, ppIds: set<int>, numRetransRequests: nat, base: int)
    ensures UsedIds(adj, []) == {} && Greedy(adj, n, cur, ups, ppIds, [], numRetransRequests)
  {
  }

  lemma MoreGreedy(adj: Adjacency, n: int, base: int, cur: int, ups: seq<int>, ppIds: set<int>, rsps: seq<RedundantSubPath>, rsp: RedundantSubPath,
                   numRetransRequests: nat)
    requires Greedy(adj, n, cur, ups, ppIds, rsps, numRetransRequests) && RspFields(adj, rsp, numRetransRequests)
    requires BestSubPath(adj, n, cur, ups, ppIds + UsedIds(adj, rsps), rsp.nodeIds)
    ensures Greedy(adj, n, cur, ups, ppIds, rsps + [rsp], numRetransRequests)
    ensures UsedIds(adj, rsps + [rsp]) == UsedIds(adj, rsps) + LinkIds(adj, rsp.nodeIds)
  {
    hide BestSubPath, RspFields, LinkIds;
    var rsps' := rsps + [rsp];
    assert rsps'[..|rsps|] == rsps;
    forall k | 0 <= k < |rsps'|
      ensures BestSubPath(adj, n, cur, ups, ppIds + UsedIds(adj, rsps'[..k]), rsps'[k].nodeIds) && RspFields(adj, rsps'[k], numRetransRequests)
    {
      if k < |rsps| { assert rsps'[..k] == rsps[..k]; }
    }
  }

  // ------------------------------------------------------- what the greedy choice guarantees

  lemma {:induction false} UsedGrows(adj: Adjacency, rsps: seq<RedundantSubPath>, j: int, k: int)
    requires 0 <= j < k <= |rsps|
    ensures LinkIds(adj, rsps[j].nodeIds) <= UsedIds(adj, rsps[..k])
    decreases k
  {
    hide LinkIds;
    var r := rsps[..k];
    assert r[..k - 1] == rsps[..k - 1] && r[k - 1] == rsps[k - 1];
    if j == k - 1 {
    } else {
      UsedGrows(adj, rsps, j, k - 1);
    }
  }

  /**
   * The sub-paths of a node run from it to an upstream node, use no link of the primary path, and no link
   * is used by two of them.
   */
  lemma SubPathsDisjoint(adj: Adjacency, n: int, base: int, cur: int, ups: seq<int>, ppIds: set<int>, beta: int, numRetransRequests: nat,
                         rsps: seq<RedundantSubPath>, j: int, k: int)
    requires Spare(adj, n, base) && SubPathsOf(adj, n, cur, ups, ppIds, beta, numRetransRequests, rsps) && 0 <= cur < n && 0 <= j < k < |rsps|
    ensures forall i :: i == j || i == k ==>
              Route(adj, rsps[i].nodeIds) && rsps[i].nodeIds[0] == cur && rsps[i].nodeIds[|rsps[i].nodeIds| - 1] in ups
    ensures LinkIds(adj, rsps[j].nodeIds) !! ppIds && LinkIds(adj, rsps[k].nodeIds) !! ppIds
    ensures LinkIds(adj, rsps[j].nodeIds) !! LinkIds(adj, rsps[k].nodeIds)
  {
    hide Spare, LinkIds, BestSubPath, UsedIds, RspFields, Route, Linked, NoDetour;
    SubPathRoute(adj, n, base, cur, ups, ppIds + UsedIds(adj, rsps[..j]), rsps[j].nodeIds);
    SubPathRoute(adj, n, base, cur, ups, ppIds + UsedIds(adj, rsps[..k]), rsps[k].nodeIds);
    UsedGrows(adj, rsps, j, k);
  }

  ghost predicate Symmetric(adj: Adjacency) {
    forall u, e {:trigger e in adj[u]} :: 0 <= u < |adj| && e in adj[u] ==> e.abDelayTotal == e.baDelayTotal
  }

  lemma {:induction false} SymmetricDelays(adj: Adjacency, n: int, base: int, forbidden: set<int>, s: int, p: seq<Arc>, t: int, i: nat)
    requires Spare(adj, n, base) && Symmetric(adj) && IsWalk(ArcsOf(adj, n, forbidden), s, p, t) && i <= |p| && Route(adj, NodesOf(s, p))
    ensures PathDelay(adj, NodesOf(s, p), i) == DownDelay(adj, NodesOf(s, p), i) == Cost(p[..i])
  {
    hide Spare, Symmetric, ArcsOf, IsWalk, NodesOf, FindLink, Route, Joins;
    SpareSize(adj, n, base);
    if i == 0 {
    } else {
      SymmetricDelays(adj, n, base, forbidden, s, p, t, i - 1);
      NodesAt(ArcsOf(adj, n, forbidden), s, p, t, i - 1);
      RouteLink(adj, NodesOf(s, p), i);
      ArcLink(adj, n, base, forbidden, p[i - 1]);
      SymmetricAt(adj, p[i - 1].from, p[i - 1].to, FindLink(adj[p[i - 1].from], p[i - 1].to).value, p[i - 1]);
      assert p[..i][..i - 1] == p[..i - 1];
    }
  }

  lemma SymmetricAt(adj: Adjacency, u: int, v: int, e: LltcLink, a: Arc)
    requires Symmetric(adj) && 0 <= u < |adj| && e in adj[u] && Joins(e, u, v) && ArcOf(e, u) == a
    ensures GetLinkDelayTotal(e, u, v) == GetLinkDelayTotal(e, v, u) == a.cost
  {
  }

  /** With equal delays both ways, no way back to an upstream node over the links still free has a shorter round trip. */
  lemma LeastRetransDelay(adj: Adjacency, n: int, base: int, cur: int, ups: seq<int>, ppIds: set<int>, beta: int, numRetransRequests: nat,
                          rsps: seq<RedundantSubPath>, k: int, q: seq<Arc>, t: int)
    requires Spare(adj, n, base) && SubPathsOf(adj, n, cur, ups, ppIds, beta, numRetransRequests, rsps) && 0 <= cur < n && 0 <= k < |rsps|
    requires Symmetric(adj) && t in ups && IsWalk(ArcsOf(adj, n, ppIds + UsedIds(adj, rsps[..k])), cur, q, t)
    ensures rsps[k].retransDelayInSingleTime <= 2 * Cost(q)
  {
    hide Spare, LinkIds, UsedIds, Route, NoDetour, Symmetric, IsWalk, NodesOf, ArcsOf, PathDelay, DownDelay, Simple;
    var rsp, arcs := rsps[k], ArcsOf(adj, n, ppIds + UsedIds(adj, rsps[..k]));
    assert BestSubPath(adj, n, cur, ups, ppIds + UsedIds(adj, rsps[..k]), rsp.nodeIds) && RspFields(adj, rsp, numRetransRequests);
    var p :| BestDetour(arcs, cur, ups, p) && rsp.nodeIds == NodesOf(cur, p);
    var t' :| t' in ups && IsWalk(arcs, cur, p, t');
    SymmetricDelays(adj, n, base, ppIds + UsedIds(adj, rsps[..k]), cur, p, t', |p|);
    assert p[..|p|] == p;
  }

  // ------------------------------------------------------------------------ whole routes

  datatype ResilientRoutes = ResilientRoutes(primaryPath: seq<int>, hrsp: map<int, seq<RedundantSubPath>>, timeouts: Timeouts)

  /** A best primary path, with the sub-paths of each of its nodes but the first, and the timeouts that follow from them. */
  ghost predicate RoutesTo(adj: Adjacency, n: int, src: int, dst: int, beta: int, numRetransRequests: nat, rr: ResilientRoutes) {
    var pp := rr.primaryPath;
    && BestSubPath(adj, n, src, [dst], {}, pp)
    && AlongPath(adj, n, pp, beta, numRetransRequests, rr.hrsp, |pp|)
    && TimeoutsOf(adj, pp, rr.hrsp, rr.timeouts)
  }

  ghost predicate AlongPath(adj: Adjacency, n: int, pp: seq<int>, beta: int, numRetransRequests: nat, hrsp: map<int, seq<RedundantSubPath>>, m: int) {
    && (forall v :: v in hrsp <==> exists i :: 0 < i < m <= |pp| && v == pp[i])
    && (forall i :: 0 < i < m <= |pp| ==> SubPathsOf(adj, n, pp[i], pp[..i], LinkIds(adj, pp), beta, numRetransRequests, hrsp[pp[i]]))
  }

  method SubPathsAlong(g: LltcGraph, pp: seq<int>, invalidLinksInPP: set<int>, beta: int, numRetransRequests: nat, ghost adj: Adjacency, ghost n: int)
    returns (hrsp: map<int, seq<RedundantSubPath>>)
    requires Ready(g, adj, n) && 0 <= n < INT_MAX && Neighbours(pp, n) && DelaysFit(adj, n) && |pp| >= 1
    requires SumsAlwaysFit(adj, n, g.maxLinkId) && numRetransRequests >= 1
    requires invalidLinksInPP == LinkIds(adj, pp) && forall f :: f in invalidLinksInPP ==> f < g.maxLinkId
    modifies g`eLinks, g`iLinks, g`maxVirtLinkId
    ensures Ready(g, adj, n) && AlongPath(adj, n, pp, beta, numRetransRequests, hrsp, |pp|)
  {
    hide *;
    hrsp := map[];
    var prevNodeIdsInPP: seq<int> := [];
    NoneAlong(adj, n, pp, beta, numRetransRequests);
    NeighboursWithin(pp, n);
    for i := 1 to |pp|
      invariant Ready(g, adj, n) && prevNodeIdsInPP == pp[..i - 1]
      invariant AlongPath(adj, n, pp, beta, numRetransRequests, hrsp, i)
    {
      prevNodeIdsInPP := prevNodeIdsInPP + [pp[i - 1]];
      assert prevNodeIdsInPP == pp[..i];
      NeighboursUpTo(pp, n, i);
      var rsps := SubPathsAt(g, pp[i], prevNodeIdsInPP, invalidLinksInPP, beta, numRetransRequests, adj, n);
      MoreAlong(adj, n, pp, beta, numRetransRequests, hrsp, i, rsps);
      hrsp := hrsp[pp[i] := rsps];
    }
  }

  lemma NoneAlong(adj: Adjacency, n: int, pp: seq<int>, beta: int, numRetransRequests: nat)
    ensures AlongPath(adj, n, pp, beta, numRetransRequests, map[], 1)
  {
  }

  lemma NeighboursUpTo(ids: seq<int>, n: int, i: int)
    requires Neighbours(ids, n) && 0 <= i <= |ids|
    ensures Neighbours(ids[..i], n)
  {
  }

  lemma MoreAlong(adj: Adjacency, n: int, pp: seq<int>, beta: int, numRetransRequests: nat, hrsp: map<int, seq<RedundantSubPath>>, m: int,
                  rsps: seq<RedundantSubPath>)
    requires AlongPath(adj, n, pp, beta, numRetransRequests, hrsp, m) && 0 < m < |pp| && Neighbours(pp, n)
    requires SubPathsOf(adj, n, pp[m], pp[..m], LinkIds(adj, pp), beta, numRetransRequests, rsps)
    ensures AlongPath(adj, n, pp, beta, numRetransRequests, hrsp[pp[m] := rsps], m + 1)
  {
    hide SubPathsOf, LinkIds;
    assert forall i :: 0 < i < m ==> pp[i] != pp[m] && pp[i] in hrsp;
    var hrsp' := hrsp[pp[m] := rsps];
    forall v | v in hrsp' ensures exists i :: 0 < i < m + 1 <= |pp| && v == pp[i] {
      if v != pp[m] {
        var i :| 0 < i < m && v == pp[i];
      }
    }
  }

  lemma RouteNeighbours(adj: Adjacency, n: int, nodeIds: seq<int>)
    requires Route(adj, nodeIds) && Linked(adj, n, nodeIds)
    ensures Neighbours(nodeIds, n) && |nodeIds| >= 1
  {
  }

  lemma PrimaryFound(adj: Adjacency, n: int, src: int, dst: int, p: seq<Arc>)
    requires 0 <= n <= |adj| && Shortest(ArcsOf(adj, n, {}), src, p, dst) && Simple(src, p)
    ensures BestSubPath(adj, n, src, [dst], {}, NodesOf(src, p))
  {
  }

  lemma ReadyParts(g: LltcGraph, adj: Adjacency, n: int)
    requires Ready(g, adj, n)
    ensures 0 <= n && |adj| == n + 1 && Ends(adj, n) && SameLinks(adj, g.eLinks, n) && g.nNodes == n && g.eLinks == adj
  {
  }

  /** The resilient routes to one destination whose primary path is `pp`. */
  method GenResilientRoutes(g: LltcGraph, pp: seq<int>, beta: int, numRetransRequests: nat, ghost src: int, ghost dst: int, ghost adj: Adjacency, ghost n: int)
    returns (rr: ResilientRoutes)
    requires Ready(g, adj, n) && 0 <= src < n < INT_MAX && DelaysFit(adj, n) && SumsAlwaysFit(adj, n, g.maxLinkId) && numRetransRequests >= 1
    requires BestSubPath(adj, n, src, [dst], {}, pp)
    modifies g`eLinks, g`iLinks, g`maxVirtLinkId
    ensures Ready(g, adj, n) && RoutesTo(adj, n, src, dst, beta, numRetransRequests, rr)
  {
    hide *;
    ReadySpare(g, adj, n);
    ReadyParts(g, adj, n);
    SubPathRoute(adj, n, g.maxLinkId, src, [dst], {}, pp);
    RouteNeighbours(adj, n, pp);
    FreeBelow(LinkIds(adj, pp), {}, g.maxLinkId);
    var invalidLinksInPP := AddPathNodeIdsArrayToLinkIdsSet(g, pp, {}, adj, n);
    var hrsp := SubPathsAlong(g, pp, invalidLinksInPP, beta, numRetransRequests, adj, n);
    ReadyParts(g, adj, n);
    var timeouts := ComputeRetranTimes(g, pp, hrsp);
    rr := ResilientRoutes(pp, hrsp, timeouts);
    AllTogether(adj, n, src, dst, beta, numRetransRequests, rr);
  }

  lemma AllTogether(adj: Adjacency, n: int, src: int, dst: int, beta: int, numRetransRequests: nat, rr: ResilientRoutes)
    requires BestSubPath(adj, n, src, [dst], {}, rr.primaryPath) && TimeoutsOf(adj, rr.primaryPath, rr.hrsp, rr.timeouts)
    requires AlongPath(adj, n, rr.primaryPath, beta, numRetransRequests, rr.hrsp, |rr.primaryPath|)
    ensures RoutesTo(adj, n, src, dst, beta, numRetransRequests, rr)
  {
  }

  /** Routes to exactly the other nodes that can be reached; the graph ends exactly as it began. */
  method GenResilientRoutesVectors(g: LltcGraph, srcNodeId: int, beta: int, numRetransRequests: nat) returns (allRrs: map<int, ResilientRoutes>)
    requires g.Valid() && g.maxVirtLinkId == g.maxLinkId && 0 <= srcNodeId < g.nNodes < INT_MAX && DelaysFit(g.eLinks, g.nNodes)
    requires SumsAlwaysFit(g.eLinks, g.nNodes, g.maxLinkId) && numRetransRequests >= 1
    modifies g`eLinks, g`iLinks, g`maxVirtLinkId
    ensures g.Valid() && g.eLinks == old(g.eLinks) && g.iLinks == old(g.iLinks) && g.maxVirtLinkId == old(g.maxVirtLinkId)
    ensures forall d :: d in allRrs <==> 0 <= d < g.nNodes && d != srcNodeId && Reachable(ArcsOf(g.eLinks, g.nNodes, {}), srcNodeId, d)
    ensures forall d :: d in allRrs ==> RoutesTo(g.eLinks, g.nNodes, srcNodeId, d, beta, numRetransRequests, allRrs[d])
  {
    hide *;
    ghost var adj := g.eLinks;
    var n := g.nNodes;
    ReadySpare(g, adj, n);
    ReadyParts(g, adj, n);
    ReadyBoth(g, adj, n);
    FitsFrom(adj, n, g.maxLinkId, srcNodeId);
    var none: set<int> := {};
    assert none + none == none;
    var prevNodeIdx, paths, order := GenPathDijkstra(g, n, srcNodeId, none, none);
    ghost var arcs := ArcsOf(adj, n, {});
    allRrs := map[];
    for dstNodeId := 0 to n
      invariant Ready(g, adj, n)
      invariant forall d :: d in allRrs <==> 0 <= d < dstNodeId && d != srcNodeId && Reachable(arcs, srcNodeId, d)
      invariant forall d :: d in allRrs ==> RoutesTo(adj, n, srcNodeId, d, beta, numRetransRequests, allRrs[d])
    {
      if dstNodeId == srcNodeId { continue; }
      var pp := ConvertPrevToPath(prevNodeIdx, srcNodeId, dstNodeId, false, arcs, paths, order);
      if pp.None? { continue; }
      PrimaryFound(adj, n, srcNodeId, dstNodeId, paths[dstNodeId]);
      var rr := GenResilientRoutes(g, pp.value, beta, numRetransRequests, srcNodeId, dstNodeId, adj, n);
      allRrs := allRrs[dstNodeId := rr];
    }
    ReadyBoth(g, adj, n);
  }

  lemma FitsFrom(adj: Adjacency, n: int, base: int, s: int)
    requires SumsAlwaysFit(adj, n, base) && 0 <= s < n
    ensures SumsFit(ArcsOf(adj, n, {}), s)
  {
  }

  lemma ReadyBoth(g: LltcGraph, adj: Adjacency, n: int)
    requires Ready(g, adj, n)
    ensures g.Valid() && g.eLinks == adj && g.iLinks == adj && g.nNodes == n && g.maxVirtLinkId == g.maxLinkId
  {
  }

  lemma {:induction false} BothWaysRate(adj: Adjacency, nodeIds: seq<int>, i: nat)
    requires Route(adj, nodeIds) && Reliable(adj) && i < |nodeIds|
    ensures Rate(BothWays(adj, nodeIds, i))
  {
    hide Route, FindLink;
    if i == 0 {
    } else {
      BothWaysRate(adj, nodeIds, i - 1);
      RouteLink(adj, nodeIds, i);
      RateProduct(LinkTo(adj, nodeIds, i).abRelia, LinkTo(adj, nodeIds, i).baRelia);
      RateProduct(BothWays(adj, nodeIds, i - 1), LinkTo(adj, nodeIds, i).abRelia * LinkTo(adj, nodeIds, i).baRelia);
    }
  }

  lemma RspLossRate(adj: Adjacency, rsp: RedundantSubPath, numRetransRequests: nat)
    requires RspFields(adj, rsp, numRetransRequests) && Reliable(adj)
    ensures Rate(rsp.dataDeliveryLossRate)
  {
    hide Route, FindLink, Reliable;
    NotEmpty(adj, rsp.nodeIds);
    BothWaysRate(adj, rsp.nodeIds, |rsp.nodeIds| - 1);
    RatePow(1.0 - BothWays(adj, rsp.nodeIds, |rsp.nodeIds| - 1), numRetransRequests);
  }

  lemma SubPathFields(adj: Adjacency, n: int, cur: int, ups: seq<int>, ppIds: set<int>, beta: int, numRetransRequests: nat,
                      rsps: seq<RedundantSubPath>, r: RedundantSubPath)
    requires SubPathsOf(adj, n, cur, ups, ppIds, beta, numRetransRequests, rsps) && r in rsps
    ensures RspFields(adj, r, numRetransRequests)
  {
    hide BestSubPath, NoDetour, RspFields;
  }

  /** The loss rates recorded for generated sub-paths are such that the end-to-end rate lies between 0 and 1. */
  lemma GeneratedRates(adj: Adjacency, n: int, src: int, dst: int, beta: int, numRetransRequests: nat, rr: ResilientRoutes)
    requires RoutesTo(adj, n, src, dst, beta, numRetransRequests, rr) && Reliable(adj)
    ensures LossRates(rr.hrsp) && Route(adj, rr.primaryPath)
    ensures Rate(1.0 - Passes(adj, rr.primaryPath, rr.hrsp, |rr.primaryPath| - 1, numRetransRequests))
  {
    hide BestSubPath, Route, IsRetransTimeout, ReportWaits, Reliable, LinkIds, SubPathsOf, Passes, Rate, RspFields;
    forall v, r {:trigger r in rr.hrsp[v]} | v in rr.hrsp && r in rr.hrsp[v] ensures Rate(r.dataDeliveryLossRate) {
      var pp := rr.primaryPath;
      var i :| 0 < i < |pp| && v == pp[i];
      SubPathFields(adj, n, v, pp[..i], LinkIds(adj, pp), beta, numRetransRequests, rr.hrsp[v], r);
      RspLossRate(adj, r, numRetransRequests);
    }
    assert Route(adj, rr.primaryPath);
    NotEmpty(adj, rr.primaryPath);
    PassesRate(adj, rr.primaryPath, rr.hrsp, |rr.primaryPath| - 1, numRetransRequests);
    RateOpposite(Passes(adj, rr.primaryPath, rr.hrsp, |rr.primaryPath| - 1, numRetransRequests));
  }

  lemma RateOpposite(x: real)
    requires Rate(x)
    ensures Rate(1.0 - x)
  {
  }
}
