/**
 * Where packets go if every router sends them down the link it prefers.  Routers with the same status map
 * search the same arcs, but nothing is assumed of how each of them breaks ties between ways of the same success ratio.
 */
module PreferredWays {
  import opened FibonacciForest
  import opened ShortestPaths
  import opened SubgraphStatus
  import opened LltcRrSubgraph

  // ------------------------------------------------------------------------ following links

  /** The link a packet takes at the u-th node if it is sent down the link of this id. */
  ghost predicate Takes(rt: Routes, egress: seq<seq<VirLink>>, u: int, downLinkID: int, l: VirLink) {
    0 <= u < |egress| && l in egress[u] && downLinkID == if l.isOnPrimPath then rt.primPath.pathID else l.pathID
  }

  /** Where a packet goes from the u-th node on, if every router sends it down its own link. */
  ghost function Follow(rt: Routes, egress: seq<seq<VirLink>>, down: seq<int>, u: int): seq<int>
    requires EgressOf(rt, egress) && 0 <= u < |egress| == |down|
    decreases |egress| - u
  {
    if u == |egress| - 1 || !exists l :: Takes(rt, egress, u, down[u], l) then [u]
    else
      var l :| Takes(rt, egress, u, down[u], l);
      LinkLeads(rt, egress, u, l);
      [u] + Follow(rt, egress, down, Place(rt, l.nodeEgress))
  }

  /** The id a router publishes names one of the links that leave its node, if it is not that of the primary path. */
  lemma TakesOne(rt: Routes, egress: seq<seq<VirLink>>, u: int, downLinkID: int, l: VirLink, l': VirLink)
    requires EgressOf(rt, egress) && Takes(rt, egress, u, downLinkID, l) && Takes(rt, egress, u, downLinkID, l')
    ensures l == l'
  {
  }

  lemma {:induction false} LinksAtHop(arcs: set<Arc>, n: int, s: int, p: seq<Arc>, t: int, i: nat, primPathID: int)
    requires Forward(arcs, n) && IsWalk(arcs, s, p, t) && i < |p|
    ensures p[i].from < t && LinksAt(p, p[i].from, primPathID).downLinkID == PublishedID(primPathID, p[i].id)
  {
    hide PublishedID;
    var a, q := p[|p| - 1], p[..|p| - 1];
    if i == |q| {
    } else {
      LinksAtHop(arcs, n, s, q, a.from, i, primPathID);
    }
  }

  /** An arc of the search is taken by a router that publishes its id. */
  lemma ArcTaken(rt: Routes, egress: seq<seq<VirLink>>, m: map<int, LinkStatus>, a: Arc) returns (l: VirLink)
    requires EgressOf(rt, egress) && a in ArcsOf(rt, egress, m)
    ensures 0 <= a.from < |egress| && Takes(rt, egress, a.from, PublishedID(rt.primPath.pathID, a.id), l) && Place(rt, l.nodeEgress) == a.to
    ensures l.linkID != 0 ==> StatusOf(m, l.linkID) == Normal
  {
    hide EgressOf, GetLinkID;
    var u, l' :| 0 <= u < |egress| && l' in egress[u] && Usable(rt, m, u, l') && ArcFor(rt, u, l') == a;
    l := l';
    hide Usable;
    LinkLeads(rt, egress, u, l);
    assert StatusOf(m, l.linkID) == Normal by { UsableNormal(rt, m, u, l); }
  }

  lemma UsableNormal(rt: Routes, m: map<int, LinkStatus>, u: int, l: VirLink)
    requires Usable(rt, m, u, l)
    ensures StatusOf(m, l.linkID) == Normal
  {
  }

  /** Where the router at `v` sends a packet is the node `w`. */
  ghost predicate NextAt(rt: Routes, egress: seq<seq<VirLink>>, m: map<int, LinkStatus>, down: seq<int>, v: int, w: int) {
    exists a :: a in ArcsOf(rt, egress, m) && a.from == v && a.to == w && 0 <= v < |down| && down[v] == PublishedID(rt.primPath.pathID, a.id)
  }

  lemma NextFollowed(rt: Routes, egress: seq<seq<VirLink>>, m: map<int, LinkStatus>, down: seq<int>, v: int, w: int)
    requires EgressOf(rt, egress) && |down| == |egress| && NextAt(rt, egress, m, down, v, w)
    ensures 0 <= v < w < |egress| && Follow(rt, egress, down, v) == [v] + Follow(rt, egress, down, w)
  {
    hide EgressOf, Place, PublishedID, Takes, Usable;
    var a :| a in ArcsOf(rt, egress, m) && a.from == v && a.to == w && 0 <= v < |down| && down[v] == PublishedID(rt.primPath.pathID, a.id);
    ArcsForward(rt, egress, m);
    var l := ArcTaken(rt, egress, m, a);
    forall l' | Takes(rt, egress, v, down[v], l') ensures l' == l {
      TakesOne(rt, egress, v, down[v], l, l');
    }
  }

  ghost predicate Stops(rt: Routes, egress: seq<seq<VirLink>>, down: seq<int>, v: int) {
    0 <= v < |egress| == |down| && (v == |egress| - 1 || !exists l :: Takes(rt, egress, v, down[v], l))
  }

  /** The packet follows the nodes from one to the next up to the one where it stops. */
  lemma {:induction false} FollowTo(rt: Routes, egress: seq<seq<VirLink>>, m: map<int, LinkStatus>, down: seq<int>, nodes: seq<int>, i: nat)
    requires EgressOf(rt, egress) && |down| == |egress| && i < |nodes| && Stops(rt, egress, down, nodes[|nodes| - 1])
    requires forall j :: 0 <= j < |nodes| - 1 ==> NextAt(rt, egress, m, down, nodes[j], nodes[j + 1])
    ensures 0 <= nodes[i] < |egress| && Follow(rt, egress, down, nodes[i]) == nodes[i..]
    decreases |nodes| - i
  {
    hide EgressOf, NextAt;
    if i == |nodes| - 1 {
      assert nodes[i..] == [nodes[i]];
    } else {
      FollowTo(rt, egress, m, down, nodes, i + 1);
      assert NextAt(rt, egress, m, down, nodes[i], nodes[i + 1]);
      NextFollowed(rt, egress, m, down, nodes[i], nodes[i + 1]);
      assert nodes[i..] == [nodes[i]] + nodes[i + 1..];
    }
  }

  // -------------------------------------------------------------------- a tree per router

  /** The table a search leaves, by the ways it has found. */
  ghost function Table(n: nat, paths: map<int, seq<Arc>>): seq<PrevNodeInfo> {
    seq(n, t => InfoOf(if t in paths then paths[t] else []))
  }

  ghost predicate IsTree(arcs: set<Arc>, n: nat, paths: map<int, seq<Arc>>) {
    TreeOf(arcs, Table(n, paths), paths)
  }

  lemma FoundTree(arcs: set<Arc>, info: seq<PrevNodeInfo>, paths: map<int, seq<Arc>>)
    requires TreeOf(arcs, info, paths)
    ensures info == Table(|info|, paths) && IsTree(arcs, |info|, paths)
  {
    hide Forward, Shortest, Reachable, InfoOf;
    assert forall t :: 0 <= t < |info| ==> info[t] == Table(|info|, paths)[t];
  }

  /** Every router has made a search of its own, over the arcs that the status map allows. */
  ghost predicate RouterTrees(rt: Routes, egress: seq<seq<VirLink>>, m: map<int, LinkStatus>, trees: seq<map<int, seq<Arc>>>) {
    |trees| == |egress| && forall u :: 0 <= u < |egress| ==> IsTree(ArcsOf(rt, egress, m), |egress|, trees[u])
  }

  /** The links the routers send packets down, each by its own search. */
  ghost function Downs(rt: Routes, egress: seq<seq<VirLink>>, trees: seq<map<int, seq<Arc>>>): seq<int>
    requires |trees| == |egress|
  {
    seq(|egress|, u requires 0 <= u < |egress| => LinksToward(trees[u], |egress| - 1, u, rt.primPath.pathID).downLinkID)
  }

  ghost predicate Delivered(rt: Routes, egress: seq<seq<VirLink>>, trees: seq<map<int, seq<Arc>>>)
    requires EgressOf(rt, egress) && |trees| == |egress| >= 1
  {
    var way := Follow(rt, egress, Downs(rt, egress, trees), 0);
    |way| >= 1 && way[|way| - 1] == |egress| - 1
  }

  /** All best ways visit the same nodes. */
  ghost predicate OneWay(arcs: set<Arc>, t: int) {
    forall p, q :: Shortest(arcs, 0, p, t) && Shortest(arcs, 0, q, t) ==> NodesOf(0, p) == NodesOf(0, q)
  }

  lemma TreeWay(arcs: set<Arc>, n: nat, paths: map<int, seq<Arc>>, t: int)
    requires IsTree(arcs, n, paths) && Reachable(arcs, 0, t)
    ensures t in paths && Shortest(arcs, 0, paths[t], t) && 0 <= t < n && Forward(arcs, n)
  {
  }

  /** The router at the i-th node of its best way sends packets to the next one. */
  lemma NextOnWay(rt: Routes, egress: seq<seq<VirLink>>, m: map<int, LinkStatus>, trees: seq<map<int, seq<Arc>>>, p: seq<Arc>, i: nat)
    requires EgressOf(rt, egress) && RouterTrees(rt, egress, m, trees) && IsWalk(ArcsOf(rt, egress, m), 0, p, |egress| - 1) && i < |p|
    requires 0 <= p[i].from < |egress| && |egress| - 1 in trees[p[i].from] && trees[p[i].from][|egress| - 1] == p
    ensures NextAt(rt, egress, m, Downs(rt, egress, trees), p[i].from, p[i].to)
  {
    hide EgressOf, IsTree, PublishedID, IsWalk, LinksAt, Forward;
    var arcs := ArcsOf(rt, egress, m);
    ArcsForward(rt, egress, m);
    LinksAtHop(arcs, |egress|, 0, p, |egress| - 1, i, rt.primPath.pathID);
    NodesAt(arcs, 0, p, |egress| - 1, i);
    hide ArcsOf;
  }

  /**
   * If all best ways visit the same nodes, a packet that each router sends down the link of its own search goes
   * along a best way from the source to the destination, whichever of equal ways each router has found.
   */
  lemma HopByHop(rt: Routes, egress: seq<seq<VirLink>>, m: map<int, LinkStatus>, trees: seq<map<int, seq<Arc>>>)
    requires EgressOf(rt, egress) && |egress| >= 1 && RouterTrees(rt, egress, m, trees)
    requires Reachable(ArcsOf(rt, egress, m), 0, |egress| - 1) && OneWay(ArcsOf(rt, egress, m), |egress| - 1)
    ensures |egress| - 1 in trees[0] && Shortest(ArcsOf(rt, egress, m), 0, trees[0][|egress| - 1], |egress| - 1)
    ensures Follow(rt, egress, Downs(rt, egress, trees), 0) == NodesOf(0, trees[0][|egress| - 1])
    ensures Delivered(rt, egress, trees)
  {
    hide EgressOf, IsTree, IsWalk, Reachable, NodesOf, NextAt, Downs, Follow, Cost, ArcsOf;
    var arcs, n := ArcsOf(rt, egress, m), |egress|;
    TreeWay(arcs, n, trees[0], n - 1);
    var nodes := NodesOf(0, trees[0][n - 1]);
    var down := Downs(rt, egress, trees);
    DownsSize(rt, egress, trees);
    WayEnds(arcs, 0, trees[0][n - 1], n - 1);
    forall j | 0 <= j < |nodes| - 1 ensures NextAt(rt, egress, m, down, nodes[j], nodes[j + 1]) {
      NodesAt(arcs, 0, trees[0][n - 1], n - 1, j);
      ArcsForward(rt, egress, m);
      assert 0 <= nodes[j] < n by { hide *; ArcEnds(arcs, n, trees[0][n - 1][j]); }
      TreeWay(arcs, n, trees[nodes[j]], n - 1);
      var q := trees[nodes[j]][n - 1];
      assert NodesOf(0, q) == nodes;
      NodesAt(arcs, 0, q, n - 1, j);
      NextOnWay(rt, egress, m, trees, q, j);
    }
    FollowTo(rt, egress, m, down, nodes, 0);
    assert nodes[0..] == nodes;
  }

  lemma ArcEnds(arcs: set<Arc>, n: int, a: Arc)
    requires Forward(arcs, n) && a in arcs
    ensures 0 <= a.from < a.to < n
  {
  }

  lemma DownsSize(rt: Routes, egress: seq<seq<VirLink>>, trees: seq<map<int, seq<Arc>>>)
    requires |trees| == |egress|
    ensures |Downs(rt, egress, trees)| == |egress|
    ensures forall u :: 0 <= u < |egress| ==> Downs(rt, egress, trees)[u] == LinksToward(trees[u], |egress| - 1, u, rt.primPath.pathID).downLinkID
  {
  }

  lemma WayEnds(arcs: set<Arc>, s: int, p: seq<Arc>, t: int)
    requires IsWalk(arcs, s, p, t)
    ensures NodesOf(s, p)[|p|] == t
  {
    if p != [] {
      NodesAt(arcs, s, p, t, 0);
    }
  }

  lemma AlongOneTree(rt: Routes, egress: seq<seq<VirLink>>, m: map<int, LinkStatus>, paths: map<int, seq<Arc>>)
    requires EgressOf(rt, egress) && |egress| >= 1 && IsTree(ArcsOf(rt, egress, m), |egress|, paths)
    requires Reachable(ArcsOf(rt, egress, m), 0, |egress| - 1)
    ensures var trees := seq(|egress|, u => paths);
            Follow(rt, egress, Downs(rt, egress, trees), 0) == NodesOf(0, paths[|egress| - 1]) && Delivered(rt, egress, trees)
  {
    hide EgressOf, IsTree, IsWalk, Reachable, NodesOf, NextAt, Downs, Follow, Cost, ArcsOf;
    var arcs, n, trees := ArcsOf(rt, egress, m), |egress|, seq(|egress|, u => paths);
    TreeWay(arcs, n, paths, n - 1);
    var p, nodes, down := paths[n - 1], NodesOf(0, paths[n - 1]), Downs(rt, egress, trees);
    DownsSize(rt, egress, trees);
    WayEnds(arcs, 0, p, n - 1);
    forall j | 0 <= j < |nodes| - 1 ensures NextAt(rt, egress, m, down, nodes[j], nodes[j + 1]) {
      NodesAt(arcs, 0, p, n - 1, j);
      ArcEnds(arcs, n, p[j]);
      NextOnWay(rt, egress, m, trees, p, j);
    }
    FollowTo(rt, egress, m, down, nodes, 0);
    assert nodes[0..] == nodes;
  }

  /** Trees with one table of predecessors lead along the same links, even if they were to differ in more than the table says. */
  lemma {:induction false} SameTable(arcs: set<Arc>, info: seq<PrevNodeInfo>, paths: map<int, seq<Arc>>, paths': map<int, seq<Arc>>,
                                     dst: int, local: int, primPathID: int)
    requires TreeOf(arcs, info, paths) && TreeOf(arcs, info, paths') && 0 <= dst < |info|
    ensures LinksToward(paths, dst, local, primPathID) == LinksToward(paths', dst, local, primPathID)
    decreases dst
  {
    hide TreeOf, PublishedID;
    TreeInfo(arcs, info, paths, dst);
    TreeInfo(arcs, info, paths', dst);
    var v := info[dst].node;
    if v != -1 {
      TreeInfo(arcs, info, paths, v);
      TreeInfo(arcs, info, paths', v);
      SameTable(arcs, info, paths, paths', v, local, primPathID);
    }
  }

  /**
   * Routers whose searches have left the same table deliver packets, along a best way, whenever there is a way at all;
   * if there is none, packets stay at the source.
   */
  lemma HopByHopAlike(rt: Routes, egress: seq<seq<VirLink>>, m: map<int, LinkStatus>, info: seq<PrevNodeInfo>, trees: seq<map<int, seq<Arc>>>)
    requires EgressOf(rt, egress) && |trees| == |info| == |egress| >= 1
    requires forall u :: 0 <= u < |trees| ==> TreeOf(ArcsOf(rt, egress, m), info, trees[u])
    ensures Reachable(ArcsOf(rt, egress, m), 0, |egress| - 1) ==>
              && |egress| - 1 in trees[0] && Shortest(ArcsOf(rt, egress, m), 0, trees[0][|egress| - 1], |egress| - 1)
              && Follow(rt, egress, Downs(rt, egress, trees), 0) == NodesOf(0, trees[0][|egress| - 1])
    ensures !Reachable(ArcsOf(rt, egress, m), 0, |egress| - 1) ==> Follow(rt, egress, Downs(rt, egress, trees), 0) == [0]
    ensures Delivered(rt, egress, trees) <==> Reachable(ArcsOf(rt, egress, m), 0, |egress| - 1)
  {
    hide *;
    var arcs, n, paths, down := ArcsOf(rt, egress, m), |egress|, trees[0], Downs(rt, egress, trees);
    var alike := seq(n, u => paths);
    DownsSize(rt, egress, trees);
    DownsSize(rt, egress, alike);
    forall u | 0 <= u < n ensures down[u] == Downs(rt, egress, alike)[u] {
      SameTable(arcs, info, trees[u], paths, n - 1, u, rt.primPath.pathID);
    }
    assert down == Downs(rt, egress, alike);
    FoundTree(arcs, info, paths);
    if Reachable(arcs, 0, n - 1) {
      AlongOneTree(rt, egress, m, paths);
      TreeWay(arcs, n, paths, n - 1);
      Arrives(rt, egress, trees, paths[n - 1], arcs);
    } else {
      NoWayNoLink(arcs, info, paths, n - 1, 0, rt.primPath.pathID);
      Stays(rt, egress, trees, arcs);
    }
  }

  lemma Arrives(rt: Routes, egress: seq<seq<VirLink>>, trees: seq<map<int, seq<Arc>>>, p: seq<Arc>, arcs: set<Arc>)
    requires EgressOf(rt, egress) && |trees| == |egress| >= 1 && Shortest(arcs, 0, p, |egress| - 1)
    requires |Downs(rt, egress, trees)| == |egress| && Follow(rt, egress, Downs(rt, egress, trees), 0) == NodesOf(0, p)
    ensures Delivered(rt, egress, trees)
  {
    hide EgressOf, IsWalk, NodesOf, Follow, Downs, Cost;
    WayEnds(arcs, 0, p, |egress| - 1);
  }

  lemma Stays(rt: Routes, egress: seq<seq<VirLink>>, trees: seq<map<int, seq<Arc>>>, arcs: set<Arc>)
    requires EgressOf(rt, egress) && |trees| == |egress| >= 1 && !Reachable(arcs, 0, |egress| - 1)
    requires |Downs(rt, egress, trees)| == |egress| && Downs(rt, egress, trees)[0] == UINT_MAX
    ensures Follow(rt, egress, Downs(rt, egress, trees), 0) == [0] && !Delivered(rt, egress, trees)
  {
    hide EgressOf, Downs;
    assert IsWalk(arcs, 0, [], 0);
    forall l ensures !Takes(rt, egress, 0, UINT_MAX, l) {
      NoneTaken(rt, egress, 0, l);
    }
  }

  // ------------------------------------------------------------------- when ties matter

  /** With the end of `p` from its k-th node on, another walk to that node leads where `p` does. */
  lemma {:induction false} Rejoined(arcs: set<Arc>, s: int, p: seq<Arc>, t: int, k: nat, r: seq<Arc>) returns (r': seq<Arc>)
    requires IsWalk(arcs, s, p, t) && k <= |p| && IsWalk(arcs, s, r, NodesOf(s, p)[k])
    ensures IsWalk(arcs, s, r', t) && Cost(r') - Cost(r) == Cost(p) - Cost(p[..k])
  {
    if k == |p| {
      WayEnds(arcs, s, p, t);
      assert p[..k] == p;
      r' := r;
    } else {
      var q, a := p[..|p| - 1], p[|p| - 1];
      r' := Rejoined(arcs, s, q, a.from, k, r);
      Extend(arcs, s, r', a);
      assert q[..k] == p[..k];
      r' := r' + [a];
    }
  }

  lemma {:induction false} Prefix(arcs: set<Arc>, s: int, p: seq<Arc>, t: int, k: nat)
    requires IsWalk(arcs, s, p, t) && k <= |p|
    ensures IsWalk(arcs, s, p[..k], NodesOf(s, p)[k]) && NodesOf(s, p[..k]) == NodesOf(s, p)[..k + 1]
  {
    if k == |p| {
      WayEnds(arcs, s, p, t);
      assert p[..k] == p && NodesOf(s, p)[..k + 1] == NodesOf(s, p);
    } else {
      var q := p[..|p| - 1];
      Prefix(arcs, s, q, p[|p| - 1].from, k);
      assert q[..k] == p[..k] && NodesOf(s, p) == NodesOf(s, q) + [p[|p| - 1].to];
    }
  }

  lemma PrefixShortest(arcs: set<Arc>, s: int, p: seq<Arc>, t: int, k: nat)
    requires Shortest(arcs, s, p, t) && k <= |p|
    ensures Shortest(arcs, s, p[..k], NodesOf(s, p)[k])
  {
    hide IsWalk, NodesOf, Cost;
    Prefix(arcs, s, p, t, k);
    forall r | IsWalk(arcs, s, r, NodesOf(s, p)[k]) ensures Cost(p[..k]) <= Cost(r) {
      var r' := Rejoined(arcs, s, p, t, k, r);
    }
  }

  /** The nodes of a walk over arcs that lead forward come in increasing order. */
  lemma Ascending(arcs: set<Arc>, n: int, s: int, p: seq<Arc>, t: int)
    requires Forward(arcs, n) && IsWalk(arcs, s, p, t)
    ensures Increasing(NodesOf(s, p))
  {
    hide IsWalk, NodesOf;
    forall j | 0 <= j < |p| ensures NodesOf(s, p)[j] < NodesOf(s, p)[j + 1] {
      NodesAt(arcs, s, p, t, j);
    }
    Chained(NodesOf(s, p));
  }

  lemma Chained(nodes: seq<int>)
    requires forall j :: 0 <= j < |nodes| - 1 ==> nodes[j] < nodes[j + 1]
    ensures Increasing(nodes)
  {
    forall i, j | 0 <= i < j < |nodes| ensures nodes[i] < nodes[j] {
      ChainedAt(nodes, i, j);
    }
  }

  lemma {:induction false} ChainedAt(nodes: seq<int>, i: int, j: int)
    requires (forall k :: 0 <= k < |nodes| - 1 ==> nodes[k] < nodes[k + 1]) && 0 <= i < j < |nodes|
    ensures nodes[i] < nodes[j]
    decreases j
  {
    assert nodes[j - 1] < nodes[j - 1 + 1];
    if i == j - 1 {
    } else {
      ChainedAt(nodes, i, j - 1);
    }
  }

  ghost predicate Increasing(a: seq<int>) {
    forall i, j :: 0 <= i < j < |a| ==> a[i] < a[j]
  }

  lemma WithoutLast(a: seq<int>, x: int)
    requires Increasing(a) && a != []
    ensures Increasing(a[..|a| - 1]) && (x in a[..|a| - 1] <==> x in a && x < a[|a| - 1]) && (x in a ==> x <= a[|a| - 1])
  {
    assert a == a[..|a| - 1] + [a[|a| - 1]];
  }

  lemma {:induction false} SameElements(a: seq<int>, b: seq<int>)
    requires Increasing(a) && Increasing(b) && forall x :: x in a <==> x in b
    ensures a == b
  {
    hide Increasing;
    if a == [] {
      var z := if b == [] then 0 else b[0];
      assert z !in a && (b == [] || z in b);
    } else {
      var z := a[0];
      assert z in a && z in b;
      var x, y := a[|a| - 1], b[|b| - 1];
      assert x in a && y in b;
      WithoutLast(a, y);
      WithoutLast(b, x);
      var a', b' := a[..|a| - 1], b[..|b| - 1];
      forall z ensures z in a' <==> z in b' {
        WithoutLast(a, z);
        WithoutLast(b, z);
      }
      SameElements(a', b');
      assert a == a' + [x] && b == b' + [y];
    }
  }

  /** The way to `v` once the ways to the nodes on `p` are those along `p`. */
  ghost function Rerouted(arcs: set<Arc>, n: nat, paths: map<int, seq<Arc>>, p: seq<Arc>, v: int): (r: seq<Arc>)
    requires IsTree(arcs, n, paths) && v in paths
    decreases v
  {
    if v in NodesOf(0, p) then p[..IndexOf(NodesOf(0, p), v)]
    else if paths[v] == [] then []
    else
      var a := paths[v][|paths[v]| - 1];
      TreeArc(arcs, n, paths, v);
      Rerouted(arcs, n, paths, p, a.from) + [a]
  }

  lemma TreeArc(arcs: set<Arc>, n: nat, paths: map<int, seq<Arc>>, v: int)
    requires IsTree(arcs, n, paths) && v in paths && paths[v] != []
    ensures var a := paths[v][|paths[v]| - 1]; a in arcs && 0 <= a.from < a.to == v < n && a.from in paths && paths[v] == paths[a.from] + [a]
  {
    hide InfoOf, Cost;
    var a := paths[v][|paths[v]| - 1];
    assert Shortest(arcs, 0, paths[v], v);
    assert a in arcs;
  }

  lemma {:induction false} ReroutedShortest(arcs: set<Arc>, n: nat, paths: map<int, seq<Arc>>, p: seq<Arc>, t: int, v: int)
    requires IsTree(arcs, n, paths) && v in paths && Shortest(arcs, 0, p, t)
    ensures Shortest(arcs, 0, Rerouted(arcs, n, paths, p, v), v)
    decreases v
  {
    hide IsTree, IsWalk, NodesOf, Cost;
    if v in NodesOf(0, p) {
      PrefixShortest(arcs, 0, p, t, IndexOf(NodesOf(0, p), v));
    } else if paths[v] == [] {
      TreeShortest(arcs, n, paths, v);
    } else {
      var a := paths[v][|paths[v]| - 1];
      TreeArc(arcs, n, paths, v);
      ReroutedShortest(arcs, n, paths, p, t, a.from);
      var r := Rerouted(arcs, n, paths, p, a.from);
      Extend(arcs, 0, r, a);
      TreeShortest(arcs, n, paths, v);
      TreeShortest(arcs, n, paths, a.from);
      Extend(arcs, 0, paths[a.from], a);
    }
  }

  lemma TreeShortest(arcs: set<Arc>, n: nat, paths: map<int, seq<Arc>>, v: int)
    requires IsTree(arcs, n, paths) && v in paths
    ensures Shortest(arcs, 0, paths[v], v)
  {
  }

  /** There is a tree that leads to `t` along any given best way. */
  lemma TreeAlong(arcs: set<Arc>, n: nat, paths: map<int, seq<Arc>>, p: seq<Arc>, t: int) returns (paths': map<int, seq<Arc>>)
    requires IsTree(arcs, n, paths) && Shortest(arcs, 0, p, t)
    ensures IsTree(arcs, n, paths') && t in paths' && paths'[t] == p
  {
    hide IsTree, IsWalk, NodesOf, Cost, Rerouted, TreeOf;
    paths' := map v | v in paths :: Rerouted(arcs, n, paths, p, v);
    TreeParts(arcs, n, paths);
    assert Reachable(arcs, 0, t);
    AlongItself(arcs, n, p, t);
    ReroutedAlong(arcs, n, paths, p, t);
    forall v | v in paths ensures Shortest(arcs, 0, paths'[v], v) {
      ReroutedShortest(arcs, n, paths, p, t, v);
    }
    forall v | v in paths && paths'[v] != []
      ensures var a := paths'[v][|paths'[v]| - 1]; a.to == v && a.from in paths' && paths'[v] == paths'[a.from] + [a]
    {
      ReroutedArc(arcs, n, paths, p, t, v);
    }
    IsTreeWhen(arcs, n, paths');
  }

  lemma ReroutedAlong(arcs: set<Arc>, n: nat, paths: map<int, seq<Arc>>, p: seq<Arc>, t: int)
    requires IsTree(arcs, n, paths) && t in paths && t in NodesOf(0, p) && p[..IndexOf(NodesOf(0, p), t)] == p
    ensures Rerouted(arcs, n, paths, p, t) == p
  {
  }

  lemma IsTreeWhen(arcs: set<Arc>, n: nat, paths: map<int, seq<Arc>>)
    requires n >= 1 && Forward(arcs, n) && (forall t :: Reachable(arcs, 0, t) ==> t in paths)
    requires forall t :: t in paths ==> 0 <= t < n && Shortest(arcs, 0, paths[t], t)
    requires forall t :: t in paths && paths[t] != [] ==>
               var a := paths[t][|paths[t]| - 1]; a.to == t && a.from in paths && paths[t] == paths[a.from] + [a]
    ensures IsTree(arcs, n, paths)
  {
    hide Forward, Shortest, Reachable, InfoOf;
  }

  lemma TreeParts(arcs: set<Arc>, n: nat, paths: map<int, seq<Arc>>)
    requires IsTree(arcs, n, paths)
    ensures n >= 1 && Forward(arcs, n) && (forall t :: t in paths ==> 0 <= t < n) && (forall t :: Reachable(arcs, 0, t) ==> t in paths)
  {
  }

  /** On the way along `p` the node it leads to comes last. */
  lemma AlongItself(arcs: set<Arc>, n: int, p: seq<Arc>, t: int)
    requires Forward(arcs, n) && IsWalk(arcs, 0, p, t)
    ensures t in NodesOf(0, p) && p[..IndexOf(NodesOf(0, p), t)] == p
  {
    WayEnds(arcs, 0, p, t);
    Ascending(arcs, n, 0, p, t);
    var k := IndexOf(NodesOf(0, p), t);
    assert k == |p|;
  }

  lemma ReroutedArc(arcs: set<Arc>, n: nat, paths: map<int, seq<Arc>>, p: seq<Arc>, t: int, v: int)
    requires IsTree(arcs, n, paths) && v in paths && Shortest(arcs, 0, p, t) && Rerouted(arcs, n, paths, p, v) != []
    ensures var r := Rerouted(arcs, n, paths, p, v); var a := r[|r| - 1];
            a.to == v && a.from in paths && r == Rerouted(arcs, n, paths, p, a.from) + [a]
  {
    hide IsTree, IsWalk, NodesOf, Cost;
    TreeParts(arcs, n, paths);
    if v in NodesOf(0, p) {
      var k := IndexOf(NodesOf(0, p), v);
      NodesAt(arcs, 0, p, t, k - 1);
      Ascending(arcs, n, 0, p, t);
      Prefix(arcs, 0, p, t, k - 1);
      var u := p[k - 1].from;
      assert Reachable(arcs, 0, u);
      assert IndexOf(NodesOf(0, p), u) == k - 1;
      assert p[..k] == p[..k - 1] + [p[k - 1]];
    } else {
      TreeArc(arcs, n, paths, v);
    }
  }

  lemma {:induction false} LinksOff(p: seq<Arc>, local: int, primPathID: int)
    requires forall i :: 0 <= i < |p| ==> p[i].from != local
    ensures LinksAt(p, local, primPathID) == PreferredLink(UINT_MAX, UINT_MAX)
  {
    if p == [] {
    } else {
      LinksOff(p[..|p| - 1], local, primPathID);
    }
  }

  /** No link is taken for the id that stands for no link. */
  lemma NoneTaken(rt: Routes, egress: seq<seq<VirLink>>, v: int, l: VirLink)
    requires EgressOf(rt, egress)
    ensures !Takes(rt, egress, v, UINT_MAX, l)
  {
    EgressSizes(rt, egress);
    if 0 <= v < |egress| && l in egress[v] {
      hide EgressOf;
      LinkLeads(rt, egress, v, l);
    }
  }

  /** If a node is on one best way but not on another, the packet may get there and no further. */
  lemma Strays(rt: Routes, egress: seq<seq<VirLink>>, m: map<int, LinkStatus>, paths: map<int, seq<Arc>>, p: seq<Arc>, q: seq<Arc>, x: int)
    returns (trees: seq<map<int, seq<Arc>>>)
    requires EgressOf(rt, egress) && |egress| >= 1 && IsTree(ArcsOf(rt, egress, m), |egress|, paths)
    requires Shortest(ArcsOf(rt, egress, m), 0, p, |egress| - 1) && Shortest(ArcsOf(rt, egress, m), 0, q, |egress| - 1)
    requires x in NodesOf(0, q) && x !in NodesOf(0, p)
    ensures RouterTrees(rt, egress, m, trees) && !Delivered(rt, egress, trees)
  {
    hide EgressOf, IsTree, IsWalk, NextAt, Downs, Follow, Cost, ArcsOf, Takes, LinksAt;
    var arcs, n := ArcsOf(rt, egress, m), |egress|;
    TreeParts(arcs, n, paths);
    var along := TreeAlong(arcs, n, paths, q, n - 1);
    var off := TreeAlong(arcs, n, paths, p, n - 1);
    trees := seq(n, u => if u == x then off else along);
    var k := IndexOf(NodesOf(0, q), x);
    var nodes, down := NodesOf(0, q)[..k + 1], Downs(rt, egress, trees);
    DownsSize(rt, egress, trees);
    WayEnds(arcs, 0, q, n - 1);
    WayEnds(arcs, 0, p, n - 1);
    Ascending(arcs, n, 0, q, n - 1);
    forall j | 0 <= j < k ensures NextAt(rt, egress, m, down, nodes[j], nodes[j + 1]) {
      NodesAt(arcs, 0, q, n - 1, j);
      ArcEnds(arcs, n, q[j]);
      NextOnWay(rt, egress, m, trees, q, j);
    }
    assert x != n - 1 && 0 <= x < n by {
      assert k < |q|;
      NodesAt(arcs, 0, q, n - 1, k);
      ArcEnds(arcs, n, q[k]);
    }
    forall i | 0 <= i < |p| ensures p[i].from != x {
      NodesAt(arcs, 0, p, n - 1, i);
    }
    LinksOff(p, x, rt.primPath.pathID);
    forall l ensures !Takes(rt, egress, x, down[x], l) {
      NoneTaken(rt, egress, x, l);
    }
    FollowTo(rt, egress, m, down, nodes, 0);
    assert nodes[0..] == nodes && nodes[0] == 0;
  }

  /**
   * Routers with the same status map deliver packets, however each of them breaks ties, exactly if all best ways visit
   * the same nodes.
   */
  lemma DeliveredExactly(rt: Routes, egress: seq<seq<VirLink>>, m: map<int, LinkStatus>, paths: map<int, seq<Arc>>)
    requires EgressOf(rt, egress) && |egress| >= 1 && IsTree(ArcsOf(rt, egress, m), |egress|, paths)
    requires Reachable(ArcsOf(rt, egress, m), 0, |egress| - 1)
    ensures OneWay(ArcsOf(rt, egress, m), |egress| - 1) <==>
            forall trees {:trigger RouterTrees(rt, egress, m, trees)} :: RouterTrees(rt, egress, m, trees) ==> Delivered(rt, egress, trees)
  {
    hide EgressOf, IsTree, Shortest, Delivered, ArcsOf, Reachable, NodesOf;
    var arcs, n := ArcsOf(rt, egress, m), |egress|;
    if OneWay(arcs, n - 1) {
      forall trees | RouterTrees(rt, egress, m, trees) ensures Delivered(rt, egress, trees) {
        HopByHop(rt, egress, m, trees);
      }
    } else {
      var p, q :| Shortest(arcs, 0, p, n - 1) && Shortest(arcs, 0, q, n - 1) && NodesOf(0, p) != NodesOf(0, q);
      var x := Differ(arcs, n, p, q, n - 1, paths);
      var trees;
      if x in NodesOf(0, q) {
        trees := Strays(rt, egress, m, paths, p, q, x);
      } else {
        trees := Strays(rt, egress, m, paths, q, p, x);
      }
      assert RouterTrees(rt, egress, m, trees) && !Delivered(rt, egress, trees);
    }
  }

  lemma Differ(arcs: set<Arc>, n: nat, p: seq<Arc>, q: seq<Arc>, t: int, paths: map<int, seq<Arc>>) returns (x: int)
    requires IsTree(arcs, n, paths) && Shortest(arcs, 0, p, t) && Shortest(arcs, 0, q, t) && NodesOf(0, p) != NodesOf(0, q)
    ensures x in NodesOf(0, p) <==> x !in NodesOf(0, q)
  {
    hide IsTree, IsWalk, NodesOf, Cost;
    TreeParts(arcs, n, paths);
    Ascending(arcs, n, 0, p, t);
    Ascending(arcs, n, 0, q, t);
    if forall x :: x in NodesOf(0, p) <==> x in NodesOf(0, q) {
      SameElements(NodesOf(0, p), NodesOf(0, q));
      assert false;
    }
    x :| x in NodesOf(0, p) <==> x !in NodesOf(0, q);
  }

  // -------------------------------------------------------------------- failed sub-paths

  /** Some link of the primary path between two of its nodes was last reported to have failed. */
  ghost predicate BrokenBetween(rt: Routes, reports: seq<Report>, u: int, v: int) {
    exists h :: 0 <= u < h <= v < |rt.primPath.nodeIds| && LastReport(reports, rt.primPath.nodeIds[h - 1], rt.primPath.nodeIds[h]) == Failure
  }

  /** The place of the upstream node that a sub-path leads to. */
  ghost function UpPlace(rt: Routes, i: int, k: int): int
    requires IsRsp(rt.hrsp, i, k) && |rt.hrsp[i][k].nodeIds| >= 1
  {
    Place(rt, rt.hrsp[i][k].nodeIds[|rt.hrsp[i][k].nodeIds| - 1])
  }

  /** The search may take the sub-path. */
  ghost predicate RspUsable(rsg: RsgStruct, i: int, k: int)
    requires Fits(rsg.rt) && IsRsp(rsg.rt.hrsp, i, k) && |rsg.rt.hrsp[i][k].nodeIds| >= 1
    reads rsg
  {
    |rsg.rt.rspRatios[i]| == |rsg.rt.hrsp[i]| &&
    Usable(rsg.rt, rsg.linkStatusMap, UpPlace(rsg.rt, i, k), RspLink(rsg.rt.hrsp[i][k], rsg.rt.rspRatios[i][k]))
  }

  lemma RspPlaces(rt: Routes, egress: seq<seq<VirLink>>, i: int, k: int)
    requires EgressOf(rt, egress) && IsRsp(rt.hrsp, i, k)
    ensures |rt.rspRatios[i]| == |rt.hrsp[i]| && |rt.hrsp[i][k].nodeIds| >= 1 && |egress| == |rt.primPath.nodeIds|
    ensures var l := RspLink(rt.hrsp[i][k], rt.rspRatios[i][k]);
            && 0 <= UpPlace(rt, i, k) < i < |egress| && l in egress[UpPlace(rt, i, k)] && Place(rt, l.nodeEgress) == i
            && RspAt(rt, UpPlace(rt, i, k), l, i, k)
  {
    EgressSizes(rt, egress);
    FitsSizes(rt);
    RspSizes(rt, i, k);
    hide Layout, GetLinkID;
    var rsp, ids := rt.hrsp[i][k], rt.primPath.nodeIds;
    var l := RspLink(rsp, rt.rspRatios[i][k]);
    var j :| 0 <= j < i && ids[..i][j] == rsp.nodeIds[|rsp.nodeIds| - 1];
    assert ids[j] == l.nodeIngress && Place(rt, l.nodeIngress) == j;
    assert RspAt(rt, j, l, i, k) && Before(i, k, |egress|, 0);
    assert l in egress[j];
  }

  /** Exactly when the search may take a sub-path: whether the sub-path itself has failed does not matter. */
  lemma RspUsableMeans(rsg: RsgStruct, i: int, k: int)
    requires rsg.Valid() && IsRsp(rsg.rt.hrsp, i, k)
    ensures Fits(rsg.rt) && |rsg.rt.hrsp[i][k].nodeIds| >= 1 && |rsg.rt.rspRatios[i]| == |rsg.rt.hrsp[i]|
    ensures RspUsable(rsg, i, k) <==> rsg.rt.rspRatios[i][k].Log? && BrokenBetween(rsg.rt, rsg.reports, UpPlace(rsg.rt, i, k), i)
  {
    RspPlaces(rsg.rt, rsg.egress, i, k);
    EgressSizes(rsg.rt, rsg.egress);
    hide EgressOf, Usable, LastReport, Place, Fits, RspAt;
    rsg.UsableMeans(UpPlace(rsg.rt, i, k), RspLink(rsg.rt.hrsp[i][k], rsg.rt.rspRatios[i][k]));
  }

  /** No sub-path with a failed link may be taken by the search. */
  ghost predicate AvoidsFailed(rsg: RsgStruct)
    requires Fits(rsg.rt)
    reads rsg
  {
    forall i, k :: IsRsp(rsg.rt.hrsp, i, k) && |rsg.rt.hrsp[i][k].nodeIds| >= 1 && Broken(rsg.rt.hrsp[i][k], rsg.reports) ==> !RspUsable(rsg, i, k)
  }

  /** The search avoids failed sub-paths exactly if the primary path is unbroken along each of them. */
  lemma FailedAvoided(rsg: RsgStruct)
    requires rsg.Valid()
    ensures Fits(rsg.rt)
    ensures AvoidsFailed(rsg) <==>
            forall i, k :: IsRsp(rsg.rt.hrsp, i, k) && |rsg.rt.rspRatios[i]| == |rsg.rt.hrsp[i]| && |rsg.rt.hrsp[i][k].nodeIds| >= 1
                             && rsg.rt.rspRatios[i][k].Log? && Broken(rsg.rt.hrsp[i][k], rsg.reports) ==>
              !BrokenBetween(rsg.rt, rsg.reports, UpPlace(rsg.rt, i, k), i)
  {
    EgressSizes(rsg.rt, rsg.egress);
    forall i, k | IsRsp(rsg.rt.hrsp, i, k)
      ensures |rsg.rt.hrsp[i][k].nodeIds| >= 1 && |rsg.rt.rspRatios[i]| == |rsg.rt.hrsp[i]|
      ensures RspUsable(rsg, i, k) <==> rsg.rt.rspRatios[i][k].Log? && BrokenBetween(rsg.rt, rsg.reports, UpPlace(rsg.rt, i, k), i)
    {
      RspUsableMeans(rsg, i, k);
    }
    hide RspUsable, Broken, BrokenBetween, Fits;
  }

  /** Then no best way that a router finds leads over a failed sub-path. */
  lemma ChosenAvoidsFailed(rsg: RsgStruct, paths: map<int, seq<Arc>>, t: int, h: nat, i: int, k: int)
    requires rsg.Valid() && Fits(rsg.rt) && AvoidsFailed(rsg) && IsTree(ArcsOf(rsg.rt, rsg.egress, rsg.linkStatusMap), |rsg.egress|, paths)
    requires t in paths && h < |paths[t]| && IsRsp(rsg.rt.hrsp, i, k) && Broken(rsg.rt.hrsp[i][k], rsg.reports)
    ensures paths[t][h].id != rsg.rt.hrsp[i][k].pathID
  {
    var rt, egress, m := rsg.rt, rsg.egress, rsg.linkStatusMap;
    assert EgressOf(rt, egress);
    hide *;
    ArcChosen(rt, egress, m, paths, t, h);
    var u, l := LinkOf(rt, egress, m, paths[t][h]);
    if paths[t][h].id == rt.hrsp[i][k].pathID {
      SameRsp(rt, egress, u, l, i, k);
      NotTaken(rsg, i, k);
    }
  }

  lemma ArcChosen(rt: Routes, egress: seq<seq<VirLink>>, m: map<int, LinkStatus>, paths: map<int, seq<Arc>>, t: int, h: nat)
    requires IsTree(ArcsOf(rt, egress, m), |egress|, paths) && t in paths && h < |paths[t]|
    ensures paths[t][h] in ArcsOf(rt, egress, m)
  {
    hide IsTree, ArcsOf;
    TreeShortest(ArcsOf(rt, egress, m), |egress|, paths, t);
    NodesAt(ArcsOf(rt, egress, m), 0, paths[t], t, h);
  }

  lemma LinkOf(rt: Routes, egress: seq<seq<VirLink>>, m: map<int, LinkStatus>, a: Arc) returns (u: int, l: VirLink)
    requires a in ArcsOf(rt, egress, m)
    ensures 0 <= u < |egress| && u == a.from && l in egress[u] && Usable(rt, m, u, l) && StoredID(l) == a.id
  {
    hide Usable;
    u, l :| 0 <= u < |egress| && l in egress[u] && Usable(rt, m, u, l) && ArcFor(rt, u, l) == a;
  }

  lemma NotTaken(rsg: RsgStruct, i: int, k: int)
    requires Fits(rsg.rt) && AvoidsFailed(rsg) && IsRsp(rsg.rt.hrsp, i, k) && Broken(rsg.rt.hrsp[i][k], rsg.reports)
    requires |rsg.rt.hrsp[i][k].nodeIds| >= 1 && |rsg.rt.rspRatios[i]| == |rsg.rt.hrsp[i]|
    ensures !Usable(rsg.rt, rsg.linkStatusMap, UpPlace(rsg.rt, i, k), RspLink(rsg.rt.hrsp[i][k], rsg.rt.rspRatios[i][k]))
  {
    hide Usable, Broken;
  }

  /** The id of a sub-path names one link. */
  lemma SameRsp(rt: Routes, egress: seq<seq<VirLink>>, u: int, l: VirLink, i: int, k: int)
    requires EgressOf(rt, egress) && 0 <= u < |egress| && l in egress[u] && IsRsp(rt.hrsp, i, k) && StoredID(l) == rt.hrsp[i][k].pathID
    ensures Fits(rt) && |rt.hrsp[i][k].nodeIds| >= 1 && |rt.rspRatios[i]| == |rt.hrsp[i]|
    ensures l == RspLink(rt.hrsp[i][k], rt.rspRatios[i][k]) && u == UpPlace(rt, i, k)
  {
    LinkLeads(rt, egress, u, l);
    RspPlaces(rt, egress, i, k);
    EgressSizes(rt, egress);
    RspSizes(rt, i, k);
    hide Layout, GetLinkID, Place;
    var j', k' :| RspAt(rt, u, l, j', k');
    RspAtParts(rt, u, l, j', k');
    OnePathId(rt, i, k, j', k');
    PlacesDiffer(rt, u, UpPlace(rt, i, k));
  }

  lemma RspAtParts(rt: Routes, u: int, l: VirLink, j: int, k: int)
    requires Fits(rt) && RspAt(rt, u, l, j, k)
    ensures IsRsp(rt.hrsp, j, k) && |rt.hrsp[j][k].nodeIds| >= 1 && l == RspLink(rt.hrsp[j][k], rt.rspRatios[j][k])
  {
  }

  lemma OnePathId(rt: Routes, i: int, k: int, j: int, l: int)
    requires Fits(rt) && IsRsp(rt.hrsp, i, k) && IsRsp(rt.hrsp, j, l) && rt.hrsp[i][k].pathID == rt.hrsp[j][l].pathID
    ensures i == j && k == l
  {
  }

  // ----------------------------------------------------------- a failed sub-path is chosen

  /** A primary path over the nodes 0, 1 and 2, and a sub-path of the node 1 that leads back to 0 by way of 3. */
  const DETOUR: Routes := Routes(PathCompact([0, 1, 2], 1), [[], [PathCompact([1, 3, 0], 2)], []], [Log(0), Log(0), Log(0)], [[], [Log(0)], []])

  const LOST: seq<Report> := [Report(0, 1, Failure), Report(0, 3, Failure)]

  lemma DetourFits()
    ensures Fits(DETOUR)
  {
    assert forall i, k :: IsRsp(DETOUR.hrsp, i, k) ==> i == 1 && k == 0;
    assert [0, 1, 2][..1] == [0];
  }

  lemma LostReports()
    ensures LastReport(LOST, 0, 1) == Failure && LastReport(LOST, 1, 2) == Normal && Broken(DETOUR.hrsp[1][0], LOST)
  {
    var r1, r2 := Report(0, 1, Failure), Report(0, 3, Failure);
    var none: seq<Report> := [];
    assert LOST == none + [r1] + [r2];
    LastAppended(none, r1, 0, 1);
    LastAppended(none, r1, 1, 2);
    LastAppended(none + [r1], r2, 0, 1);
    LastAppended(none + [r1], r2, 1, 2);
    LastAppended(none + [r1], r2, 3, 0);
    var path := DETOUR.hrsp[1][0];
    assert path.nodeIds[2 - 1] == 3 && path.nodeIds[2] == 0;
    hide LastReport;
    assert LastReport(LOST, path.nodeIds[2 - 1], path.nodeIds[2]) == Failure;
  }

  /** What the search may take there: from the source, the sub-path only; from the node 1, the link to the destination. */
  lemma DetourArcs(rsg: RsgStruct) returns (a: Arc, b: Arc)
    requires rsg.Valid() && rsg.rt == DETOUR && rsg.reports == LOST
    ensures a in ArcsOf(rsg.rt, rsg.egress, rsg.linkStatusMap) && a.from == 0 && a.to == 1
    ensures b in ArcsOf(rsg.rt, rsg.egress, rsg.linkStatusMap) && b.from == 1 && b.to == 2
  {
    var rt, egress, m := rsg.rt, rsg.egress, rsg.linkStatusMap;
    LostReports();
    RspPlaces(rt, egress, 1, 0);
    RspUsableMeans(rsg, 1, 0);
    hide EgressOf, LastReport, Layout, GetLinkID;
    var l := RspLink(rt.hrsp[1][0], rt.rspRatios[1][0]);
    assert rt.primPath.nodeIds[0] == 0;
    assert UpPlace(rt, 1, 0) == 0;
    assert BrokenBetween(rt, LOST, 0, 1);
    assert Usable(rt, m, 0, l);
    a := ArcFor(rt, 0, l);
    rsg.HopMeans(2);
    PrimUsable(rt, egress, m, 2);
    b :| b in ArcsOf(rt, egress, m) && b.from == 1 && b.to == 2;
  }

  lemma FromSource(rsg: RsgStruct, a: Arc)
    requires rsg.Valid() && rsg.rt == DETOUR && rsg.reports == LOST && a in ArcsOf(rsg.rt, rsg.egress, rsg.linkStatusMap) && a.from == 0
    ensures a.id == DETOUR.hrsp[1][0].pathID
  {
    LostReports();
    var u, l := LinkOf(rsg.rt, rsg.egress, rsg.linkStatusMap, a);
    rsg.UsableMeans(u, l);
    EgressSizes(rsg.rt, rsg.egress);
    hide LastReport, Layout, GetLinkID, Usable, Place;
    if !PrimAt(rsg.rt, u, l, 3) {
      var j, k :| RspAt(rsg.rt, u, l, j, k);
      RspAtParts(rsg.rt, u, l, j, k);
      assert j == 1 && k == 0;
    }
  }

  lemma FirstArc(arcs: set<Arc>, p: seq<Arc>, t: int)
    requires IsWalk(arcs, 0, p, t) && t != 0
    ensures |p| > 0 && p[0] in arcs && p[0].from == 0
  {
    NodesAt(arcs, 0, p, t, 0);
  }

  /** With both ways to the node 1 broken, the router at the source sends packets down the sub-path all the same. */
  lemma FailedSubPathTaken(rsg: RsgStruct, paths: map<int, seq<Arc>>)
    requires rsg.Valid() && rsg.rt == DETOUR && rsg.reports == LOST
    requires IsTree(ArcsOf(rsg.rt, rsg.egress, rsg.linkStatusMap), |rsg.egress|, paths)
    ensures Broken(DETOUR.hrsp[1][0], rsg.reports)
    ensures LinksToward(paths, 2, 0, DETOUR.primPath.pathID).downLinkID == DETOUR.hrsp[1][0].pathID
  {
    var arcs, n := ArcsOf(rsg.rt, rsg.egress, rsg.linkStatusMap), |rsg.egress|;
    EgressSizes(rsg.rt, rsg.egress);
    LostReports();
    assert n == 3 && EgressOf(rsg.rt, rsg.egress);
    hide *;
    var a, b := DetourArcs(rsg);
    TwoArcs(arcs, a, b);
    TreeWay(arcs, n, paths, 2);
    BestIsWalk(arcs, paths[2], 2);
    FirstArc(arcs, paths[2], 2);
    LinksAtHop(arcs, n, 0, paths[2], 2, 0, DETOUR.primPath.pathID);
    FromSource(rsg, paths[2][0]);
    Published(DETOUR.primPath.pathID, DETOUR.hrsp[1][0].pathID);
  }

  lemma TwoArcs(arcs: set<Arc>, a: Arc, b: Arc)
    requires a in arcs && b in arcs && a.from == 0 && a.to == b.from
    ensures Reachable(arcs, 0, b.to)
  {
    hide Cost, NodesOf;
    assert IsWalk(arcs, 0, [], 0);
    Extend(arcs, 0, [], a);
    Extend(arcs, 0, [] + [a], b);
  }

  lemma BestIsWalk(arcs: set<Arc>, p: seq<Arc>, t: int)
    requires Shortest(arcs, 0, p, t)
    ensures IsWalk(arcs, 0, p, t)
  {
  }

  lemma Published(primPathID: int, id: int)
    requires id < NODE_ID_LIMIT
    ensures PublishedID(primPathID, id) == id
  {
  }

  /** The run that leads there. */
  method FailedSubPathChosen() returns (rsg: RsgStruct, pl: PreferredLink)
    ensures rsg.Valid() && rsg.rt == DETOUR && rsg.reports == LOST
    ensures Broken(DETOUR.hrsp[1][0], rsg.reports) && pl.downLinkID == DETOUR.hrsp[1][0].pathID
  {
    hide *;
    DetourFits();
    LostInOrder();
    rsg := new RsgStruct(DETOUR);
    rsg.UpdateLinkStatus(0, 1, Failure);
    rsg.UpdateLinkStatus(0, 3, Failure);
    DetourSums(rsg);
    ghost var info, paths;
    pl, info, paths := rsg.ComputePreferredPathID(0);
    DetourNodes(rsg);
    FoundTree(ArcsOf(rsg.rt, rsg.egress, rsg.linkStatusMap), info, paths);
    FailedSubPathTaken(rsg, paths);
  }

  lemma LostInOrder()
    ensures [] + [Report(0, 1, Failure)] + [Report(0, 3, Failure)] == LOST
  {
  }

  lemma DetourNodes(rsg: RsgStruct)
    requires rsg.Valid() && rsg.rt == DETOUR
    ensures |rsg.egress| == 3 && 0 in DETOUR.primPath.nodeIds && IndexOf(DETOUR.primPath.nodeIds, 0) == 0
  {
    EgressSizes(rsg.rt, rsg.egress);
    assert DETOUR.primPath.nodeIds[0] == 0;
  }

  lemma DetourSums(rsg: RsgStruct)
    requires rsg.Valid() && rsg.rt == DETOUR
    ensures SumsFit(ArcsOf(rsg.rt, rsg.egress, rsg.linkStatusMap))
  {
    var arcs := ArcsOf(rsg.rt, rsg.egress, rsg.linkStatusMap);
    EgressSizes(rsg.rt, rsg.egress);
    ArcsForward(rsg.rt, rsg.egress, rsg.linkStatusMap);
    forall a | a in arcs ensures a.cost <= 0 {
      var u, l :| 0 <= u < |rsg.egress| && l in rsg.egress[u] && Usable(rsg.rt, rsg.linkStatusMap, u, l) && ArcFor(rsg.rt, u, l) == a;
      FreeLink(rsg, u, l);
    }
    SumsFitWhen(arcs, |rsg.egress|, 0);
  }

  lemma FreeLink(rsg: RsgStruct, u: int, l: VirLink)
    requires rsg.Valid() && rsg.rt == DETOUR && 0 <= u < |rsg.egress| && l in rsg.egress[u]
    ensures l.succRatioInLog == Log(0)
  {
    EgressSizes(rsg.rt, rsg.egress);
    hide Layout, GetLinkID, Usable, Place;
    if !PrimAt(rsg.rt, u, l, 3) {
      var j, k :| RspAt(rsg.rt, u, l, j, k);
      RspAtParts(rsg.rt, u, l, j, k);
    }
  }
}
