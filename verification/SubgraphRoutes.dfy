/**
 * The ways of the search in terms of what a subgraph is made from: links of the primary path and sub-paths, with the success
 * ratios given for them.
 */
module SubgraphRoutes {
  import opened FibonacciForest
  import opened ShortestPaths
  import opened SubgraphStatus
  import opened LltcRrSubgraph
  import opened PreferredWays

  /** A link of the primary path, by the place of the node it leads to; or a sub-path, by its place in the table. */
  datatype Hop = PrimHop(i: int) | RspHop(j: int, k: int)

  /** The hop leads from the u-th node of the primary path down to the v-th. */
  ghost predicate IsHop(rt: Routes, h: Hop, u: int, v: int) {
    && 0 <= u < v < |rt.primPath.nodeIds|
    && match h
       case PrimHop(i) => u == i - 1 && v == i
       case RspHop(j, k) =>
         && IsRsp(rt.hrsp, j, k) && v == j && |rt.hrsp[j][k].nodeIds| >= 1
         && rt.primPath.nodeIds[u] == rt.hrsp[j][k].nodeIds[|rt.hrsp[j][k].nodeIds| - 1]
         && rt.primPath.nodeIds[v] == rt.hrsp[j][k].nodeIds[0]
  }

  /** The success ratio given for the hop. */
  ghost function Ratio(rt: Routes, h: Hop): LogRatio {
    match h
    case PrimHop(i) => if 0 <= i < |rt.primRatios| then rt.primRatios[i] else MinusInfinity
    case RspHop(j, k) => if 0 <= j < |rt.rspRatios| && 0 <= k < |rt.rspRatios[j]| then rt.rspRatios[j][k] else MinusInfinity
  }

  /** The search may take the hop: its ratio is not 0, and a link has not failed, or a sub-path leads past a link that has. */
  ghost predicate Open(rt: Routes, reports: seq<Report>, h: Hop, u: int, v: int) {
    && Ratio(rt, h).Log? && 0 <= u < v < |rt.primPath.nodeIds|
    && if h.PrimHop? then LastReport(reports, rt.primPath.nodeIds[u], rt.primPath.nodeIds[v]) == Normal else BrokenBetween(rt, reports, u, v)
  }

  /** The path id under which a router sends a packet over the hop. */
  ghost function SentUnder(rt: Routes, h: Hop): int {
    match h
    case PrimHop(_) => rt.primPath.pathID
    case RspHop(j, k) => if IsRsp(rt.hrsp, j, k) then rt.hrsp[j][k].pathID else -1
  }

  /** The hops lead from the source over these nodes, and each of them may be taken. */
  ghost predicate IsRoute(rt: Routes, reports: seq<Report>, hops: seq<Hop>, nodes: seq<int>) {
    && |nodes| == |hops| + 1 && nodes[0] == 0
    && forall i :: 0 <= i < |hops| ==> IsHop(rt, hops[i], nodes[i], nodes[i + 1]) && Open(rt, reports, hops[i], nodes[i], nodes[i + 1])
  }

  /** The sum of the logarithms of the ratios, that is the logarithm of their product, with its sign changed. */
  ghost function Total(rt: Routes, hops: seq<Hop>): nat {
    if hops == [] then 0
    else Total(rt, hops[..|hops| - 1]) + if Ratio(rt, hops[|hops| - 1]).Log? then Ratio(rt, hops[|hops| - 1]).minus else 0
  }

  /** No route to the same node has a better success ratio. */
  ghost predicate BestRoute(rt: Routes, reports: seq<Report>, hops: seq<Hop>, nodes: seq<int>) {
    && IsRoute(rt, reports, hops, nodes)
    && forall hops', nodes' :: IsRoute(rt, reports, hops', nodes') && nodes'[|hops'|] == nodes[|hops|] ==> Total(rt, hops) <= Total(rt, hops')
  }

  // -------------------------------------------------------------------------- links and hops

  /** Every link that leaves a node is a hop, with the ends, the id and the ratio given for it. */
  lemma LinkIsHop(rt: Routes, egress: seq<seq<VirLink>>, u: int, l: VirLink) returns (h: Hop)
    requires EgressOf(rt, egress) && 0 <= u < |egress| && l in egress[u]
    ensures |egress| == |rt.primPath.nodeIds| && h.PrimHop? == l.isOnPrimPath
    ensures IsHop(rt, h, u, Place(rt, l.nodeEgress)) && l.succRatioInLog == Ratio(rt, h) && l.pathID == SentUnder(rt, h)
    ensures l.nodeIngress == rt.primPath.nodeIds[u] && l.nodeEgress == rt.primPath.nodeIds[Place(rt, l.nodeEgress)]
  {
    EgressSizes(rt, egress);
    FitsSizes(rt);
    LinkLeads(rt, egress, u, l);
    hide Layout, GetLinkID;
    if PrimAt(rt, u, l, |egress|) {
      h := PrimHop(u + 1);
      PlaceIs(rt, l.nodeEgress, u + 1);
    } else {
      var j, k :| Before(j, k, |egress|, 0) && RspAt(rt, u, l, j, k);
      RspSizes(rt, j, k);
      h := RspHop(j, k);
      RspStarts(rt, j, k);
      PlaceIs(rt, l.nodeEgress, j);
    }
  }

  /** A sub-path begins at the node it is listed for. */
  lemma RspStarts(rt: Routes, j: int, k: int)
    requires Fits(rt) && IsRsp(rt.hrsp, j, k)
    ensures |rt.hrsp[j][k].nodeIds| >= 1 && 0 <= j < |rt.primPath.nodeIds| && rt.hrsp[j][k].nodeIds[0] == rt.primPath.nodeIds[j]
    ensures rt.hrsp[j][k].nodeIds[|rt.hrsp[j][k].nodeIds| - 1] in rt.primPath.nodeIds[..j]
  {
  }

  /** For every hop there is such a link. */
  lemma HopHasLink(rt: Routes, egress: seq<seq<VirLink>>, h: Hop, u: int, v: int) returns (l: VirLink)
    requires EgressOf(rt, egress) && IsHop(rt, h, u, v)
    ensures |egress| == |rt.primPath.nodeIds| && l in egress[u] && h.PrimHop? == l.isOnPrimPath && Place(rt, l.nodeEgress) == v
    ensures l.succRatioInLog == Ratio(rt, h)
  {
    EgressSizes(rt, egress);
    FitsSizes(rt);
    hide Layout, GetLinkID;
    match h
    case PrimHop(i) =>
      l := PrimLink(rt, i);
      assert PrimAt(rt, u, l, |egress|);
      PlaceIs(rt, l.nodeEgress, i);
    case RspHop(j, k) =>
      RspSizes(rt, j, k);
      l := RspLink(rt.hrsp[j][k], rt.rspRatios[j][k]);
      assert RspAt(rt, u, l, j, k) && Before(j, k, |egress|, 0);
      PlaceIs(rt, l.nodeEgress, v);
  }

  /**
   * The link of a sub-path, whichever link it is that has its path id: it leads from the last node of the sub-path to the
   * first one, with the ratio given for that sub-path and no other.
   */
  lemma RspLinkFields(rt: Routes, egress: seq<seq<VirLink>>, u: int, l: VirLink, j: int, k: int)
    requires EgressOf(rt, egress) && 0 <= u < |egress| && l in egress[u] && !l.isOnPrimPath && IsRsp(rt.hrsp, j, k) && l.pathID == rt.hrsp[j][k].pathID
    ensures |rt.hrsp[j][k].nodeIds| >= 1 && |rt.rspRatios| == |rt.hrsp| && |rt.rspRatios[j]| == |rt.hrsp[j]|
    ensures l.succRatioInLog == rt.rspRatios[j][k]
    ensures l.nodeIngress == rt.hrsp[j][k].nodeIds[|rt.hrsp[j][k].nodeIds| - 1] && l.nodeEgress == rt.hrsp[j][k].nodeIds[0]
  {
    EgressSizes(rt, egress);
    FitsSizes(rt);
    RspSizes(rt, j, k);
    var h := LinkIsHop(rt, egress, u, l);
    hide Layout, GetLinkID, Place, EgressOf;
    OnePathId(rt, h.j, h.k, j, k);
  }

  lemma OpenMeans(rsg: RsgStruct, u: int, l: VirLink, h: Hop, v: int)
    requires rsg.Valid() && 0 <= u < |rsg.egress| && l in rsg.egress[u] && v == Place(rsg.rt, l.nodeEgress)
    requires IsHop(rsg.rt, h, u, v) && l.succRatioInLog == Ratio(rsg.rt, h) && h.PrimHop? == l.isOnPrimPath
    ensures Usable(rsg.rt, rsg.linkStatusMap, u, l) <==> Open(rsg.rt, rsg.reports, h, u, v)
  {
    rsg.UsableMeans(u, l);
    hide EgressOf, Usable, LastReport, Place, Fits, LinksRight, PathsRight, ZeroNormal, Ratio;
  }

  /** An arc of the search is an open hop whose logarithm is its cost. */
  lemma ArcIsHop(rsg: RsgStruct, a: Arc) returns (h: Hop)
    requires rsg.Valid() && a in ArcsOf(rsg.rt, rsg.egress, rsg.linkStatusMap)
    ensures IsHop(rsg.rt, h, a.from, a.to) && Open(rsg.rt, rsg.reports, h, a.from, a.to)
    ensures Ratio(rsg.rt, h) == Log(a.cost) && SentUnder(rsg.rt, h) == PublishedID(rsg.rt.primPath.pathID, a.id)
  {
    var rt, egress, m := rsg.rt, rsg.egress, rsg.linkStatusMap;
    assert EgressOf(rt, egress);
    hide EgressOf, Usable, Place, RsgStruct.Valid, GetLinkID, IsHop, Open, Ratio, SentUnder;
    var u, l :| 0 <= u < |egress| && l in egress[u] && Usable(rt, m, u, l) && ArcFor(rt, u, l) == a;
    h := LinkIsHop(rt, egress, u, l);
    OpenMeans(rsg, u, l, h, a.to);
    assert Ratio(rt, h).Log? by { OpenRatio(rt, rsg.reports, h, a.from, a.to); }
    LinkLeads(rt, egress, u, l);
    PrimSent(rt, h);
  }

  lemma OpenRatio(rt: Routes, reports: seq<Report>, h: Hop, u: int, v: int)
    requires Open(rt, reports, h, u, v)
    ensures Ratio(rt, h).Log?
  {
  }

  lemma PrimSent(rt: Routes, h: Hop)
    ensures h.PrimHop? ==> SentUnder(rt, h) == rt.primPath.pathID
  {
  }

  /** Every open hop is an arc of the search. */
  lemma HopIsArc(rsg: RsgStruct, h: Hop, u: int, v: int) returns (a: Arc)
    requires rsg.Valid() && IsHop(rsg.rt, h, u, v) && Open(rsg.rt, rsg.reports, h, u, v)
    ensures a in ArcsOf(rsg.rt, rsg.egress, rsg.linkStatusMap) && a.from == u && a.to == v && Ratio(rsg.rt, h) == Log(a.cost)
  {
    var rt, egress, m := rsg.rt, rsg.egress, rsg.linkStatusMap;
    assert EgressOf(rt, egress);
    assert 0 <= u < |rt.primPath.nodeIds|;
    hide EgressOf, Usable, Place, RsgStruct.Valid, GetLinkID, IsHop, Open, Ratio, SentUnder;
    var l := HopHasLink(rt, egress, h, u, v);
    OpenMeans(rsg, u, l, h, v);
    OpenRatio(rt, rsg.reports, h, u, v);
    a := ArcFor(rt, u, l);
  }

  // -------------------------------------------------------------------------- walks and routes

  lemma {:induction false} WalkIsRoute(rsg: RsgStruct, p: seq<Arc>, t: int) returns (hops: seq<Hop>)
    requires rsg.Valid() && IsWalk(ArcsOf(rsg.rt, rsg.egress, rsg.linkStatusMap), 0, p, t)
    ensures IsRoute(rsg.rt, rsg.reports, hops, NodesOf(0, p)) && |hops| == |p| && NodesOf(0, p)[|p|] == t && Total(rsg.rt, hops) == Cost(p)
    ensures forall i :: 0 <= i < |p| ==> SentUnder(rsg.rt, hops[i]) == PublishedID(rsg.rt.primPath.pathID, p[i].id)
  {
    hide ArcsOf, RsgStruct.Valid, IsHop, Open, Ratio, SentUnder, PublishedID;
    if p == [] {
      hops := [];
    } else {
      var a, q := p[|p| - 1], p[..|p| - 1];
      var init := WalkIsRoute(rsg, q, a.from);
      var h := ArcIsHop(rsg, a);
      hops := init + [h];
      assert hops[..|hops| - 1] == init;
      MoreRoute(rsg.rt, rsg.reports, init, NodesOf(0, q), h, a.to);
    }
  }

  lemma MoreRoute(rt: Routes, reports: seq<Report>, hops: seq<Hop>, nodes: seq<int>, h: Hop, v: int)
    requires IsRoute(rt, reports, hops, nodes) && IsHop(rt, h, nodes[|hops|], v) && Open(rt, reports, h, nodes[|hops|], v)
    ensures IsRoute(rt, reports, hops + [h], nodes + [v])
  {
    hide IsHop, Open;
  }

  lemma {:induction false} RouteIsWalk(rsg: RsgStruct, hops: seq<Hop>, nodes: seq<int>) returns (p: seq<Arc>)
    requires rsg.Valid() && IsRoute(rsg.rt, rsg.reports, hops, nodes)
    ensures IsWalk(ArcsOf(rsg.rt, rsg.egress, rsg.linkStatusMap), 0, p, nodes[|hops|]) && Cost(p) == Total(rsg.rt, hops)
    decreases |hops|
  {
    hide ArcsOf, RsgStruct.Valid, IsHop, Open, Ratio;
    if hops == [] {
      p := [];
    } else {
      var init, h := hops[..|hops| - 1], hops[|hops| - 1];
      assert IsRoute(rsg.rt, rsg.reports, init, nodes[..|hops|]) by {
        forall i | 0 <= i < |init|
          ensures IsHop(rsg.rt, init[i], nodes[..|hops|][i], nodes[..|hops|][i + 1]) && Open(rsg.rt, rsg.reports, init[i], nodes[..|hops|][i], nodes[..|hops|][i + 1])
        {
          assert init[i] == hops[i];
        }
      }
      var q := RouteIsWalk(rsg, init, nodes[..|hops|]);
      assert h == hops[|hops| - 1];
      var a := HopIsArc(rsg, h, nodes[|hops| - 1], nodes[|hops|]);
      Extend(ArcsOf(rsg.rt, rsg.egress, rsg.linkStatusMap), 0, q, a);
      p := q + [a];
    }
  }

  /** A shortest walk of the search is a route of the best success ratio, by the ratios given for links and sub-paths. */
  lemma ShortestIsBest(rsg: RsgStruct, p: seq<Arc>, t: int) returns (hops: seq<Hop>)
    requires rsg.Valid() && Shortest(ArcsOf(rsg.rt, rsg.egress, rsg.linkStatusMap), 0, p, t)
    ensures BestRoute(rsg.rt, rsg.reports, hops, NodesOf(0, p)) && |hops| == |p| && NodesOf(0, p)[|p|] == t
    ensures forall i :: 0 <= i < |p| ==> SentUnder(rsg.rt, hops[i]) == PublishedID(rsg.rt.primPath.pathID, p[i].id)
  {
    hide RsgStruct.Valid, ArcsOf, IsRoute, Total, Cost, IsWalk, NodesOf, SentUnder, PublishedID;
    hops := WalkIsRoute(rsg, p, t);
    forall hops', nodes' | IsRoute(rsg.rt, rsg.reports, hops', nodes') && RouteSize(hops', nodes') && nodes'[|hops'|] == t
      ensures Total(rsg.rt, hops) <= Total(rsg.rt, hops')
    {
      var q := RouteIsWalk(rsg, hops', nodes');
    }
    assert forall hops', nodes' :: IsRoute(rsg.rt, rsg.reports, hops', nodes') ==> RouteSize(hops', nodes') by {
      forall hops', nodes' | IsRoute(rsg.rt, rsg.reports, hops', nodes') ensures RouteSize(hops', nodes') {
        RouteSizes(rsg.rt, rsg.reports, hops', nodes');
      }
    }
  }

  ghost predicate RouteSize(hops: seq<Hop>, nodes: seq<int>) {
    |nodes| == |hops| + 1
  }

  lemma RouteSizes(rt: Routes, reports: seq<Report>, hops: seq<Hop>, nodes: seq<int>)
    requires IsRoute(rt, reports, hops, nodes)
    ensures RouteSize(hops, nodes)
  {
  }

  ghost predicate SomeRoute(rt: Routes, reports: seq<Report>, t: int) {
    exists hops, nodes :: IsRoute(rt, reports, hops, nodes) && nodes[|hops|] == t
  }

  /** The search reaches exactly the nodes that some route leads to. */
  lemma ReachedMeans(rsg: RsgStruct, t: int)
    requires rsg.Valid()
    ensures Reachable(ArcsOf(rsg.rt, rsg.egress, rsg.linkStatusMap), 0, t) <==> SomeRoute(rsg.rt, rsg.reports, t)
  {
    hide RsgStruct.Valid, ArcsOf, IsWalk, NodesOf, Total, Cost, IsHop, Open, SentUnder, PublishedID;
    if p :| IsWalk(ArcsOf(rsg.rt, rsg.egress, rsg.linkStatusMap), 0, p, t) {
      var hops := WalkIsRoute(rsg, p, t);
    }
    if hops, nodes :| IsRoute(rsg.rt, rsg.reports, hops, nodes) && nodes[|hops|] == t {
      var p := RouteIsWalk(rsg, hops, nodes);
    }
  }

  // ------------------------------------------------------------------------------ both links

  /** At each node of the way chosen, the link up is the one that enters the node on that way; at its source there is none. */
  lemma {:induction false} UpLinkAt(arcs: set<Arc>, n: int, s: int, p: seq<Arc>, t: int, i: nat, primPathID: int)
    requires Forward(arcs, n) && IsWalk(arcs, s, p, t) && i < |p|
    ensures p[i].from < t
    ensures LinksAt(p, p[i].from, primPathID).upLinkID == if i == 0 then UINT_MAX else PublishedID(primPathID, p[i - 1].id)
  {
    hide PublishedID;
    var a, q := p[|p| - 1], p[..|p| - 1];
    if i == |q| {
    } else {
      UpLinkAt(arcs, n, s, q, a.from, i, primPathID);
    }
  }

  lemma NodesOnWalk(arcs: set<Arc>, n: int, p: seq<Arc>, t: int)
    requires Forward(arcs, n) && IsWalk(arcs, 0, p, t)
    ensures forall i :: 0 <= i < |p| ==> NodesOf(0, p)[i] == p[i].from
  {
    hide Forward, IsWalk, NodesOf;
    forall i | 0 <= i < |p| ensures NodesOf(0, p)[i] == p[i].from {
      NodesAt(arcs, 0, p, t, i);
    }
  }

  /** The links to use down and up at a node of a route: those after and before it; none at its end, and at nodes that are not on it. */
  ghost predicate LinksOn(rt: Routes, hops: seq<Hop>, nodes: seq<int>, local: int, pl: PreferredLink) {
    && |nodes| == |hops| + 1
    && (forall i :: 0 <= i < |hops| && nodes[i] == local ==>
          pl.downLinkID == SentUnder(rt, hops[i]) && pl.upLinkID == if i == 0 then UINT_MAX else SentUnder(rt, hops[i - 1]))
    && ((forall i :: 0 <= i < |hops| ==> nodes[i] != local) ==> pl == PreferredLink(UINT_MAX, UINT_MAX))
  }

  /**
   * What the search of a router comes to: if there is a route to a node at all, by what was reported, it has found one of
   * the best success ratio, and each node on it is told the links before and after it there.
   */
  lemma ChosenIsBest(rsg: RsgStruct, info: seq<PrevNodeInfo>, paths: map<int, seq<Arc>>, t: int) returns (hops: seq<Hop>, nodes: seq<int>)
    requires rsg.Valid() && TreeOf(ArcsOf(rsg.rt, rsg.egress, rsg.linkStatusMap), info, paths) && SomeRoute(rsg.rt, rsg.reports, t)
    ensures |nodes| == |hops| + 1 && nodes[|hops|] == t && BestRoute(rsg.rt, rsg.reports, hops, nodes)
    ensures forall local :: LinksOn(rsg.rt, hops, nodes, local, LinksToward(paths, t, local, rsg.rt.primPath.pathID))
  {
    var arcs := ArcsOf(rsg.rt, rsg.egress, rsg.linkStatusMap);
    hide *;
    ReachedMeans(rsg, t);
    FoundTree(arcs, info, paths);
    TreeWay(arcs, |info|, paths, t);
    var p := paths[t];
    hops := ShortestIsBest(rsg, p, t);
    nodes := NodesOf(0, p);
    BestIsWalk(arcs, p, t);
    forall local ensures LinksOn(rsg.rt, hops, nodes, local, LinksToward(paths, t, local, rsg.rt.primPath.pathID)) {
      LinksOnWay(rsg.rt, arcs, |info|, paths, t, hops, local);
    }
  }

  lemma LinksOnWay(rt: Routes, arcs: set<Arc>, n: int, paths: map<int, seq<Arc>>, t: int, hops: seq<Hop>, local: int)
    requires t in paths && Forward(arcs, n) && IsWalk(arcs, 0, paths[t], t) && |hops| == |paths[t]|
    requires forall i :: 0 <= i < |hops| ==> SentUnder(rt, hops[i]) == PublishedID(rt.primPath.pathID, paths[t][i].id)
    ensures LinksOn(rt, hops, NodesOf(0, paths[t]), local, LinksToward(paths, t, local, rt.primPath.pathID))
  {
    hide Forward, IsWalk, NodesOf, LinksAt, SentUnder, PublishedID;
    var p, pl := paths[t], LinksToward(paths, t, local, rt.primPath.pathID);
    var nodes := NodesOf(0, p);
    NodesOnWalk(arcs, n, p, t);
    forall i | 0 <= i < |hops| && nodes[i] == local
      ensures pl.downLinkID == SentUnder(rt, hops[i]) && pl.upLinkID == if i == 0 then UINT_MAX else SentUnder(rt, hops[i - 1])
    {
      LinksAtHop(arcs, n, 0, p, t, i, rt.primPath.pathID);
      UpLinkAt(arcs, n, 0, p, t, i, rt.primPath.pathID);
    }
    if i :| 0 <= i < |p| && p[i].from == local {
      assert nodes[i] == local;
      assert |nodes| == |hops| + 1;
      assert forall i :: 0 <= i < |hops| && nodes[i] == local ==> pl.downLinkID == SentUnder(rt, hops[i]);
      assert forall i :: 0 <= i < |hops| && nodes[i] == local ==> pl.upLinkID == if i == 0 then UINT_MAX else SentUnder(rt, hops[i - 1]);
    } else {
      LinksOff(p, local, rt.primPath.pathID);
    }
  }
}
