/**
 * Routers that were told the same of the primary path make the same search, so that a packet each of them sends down its
 * own link gets to the destination.
 */
module RouterAgreement {
  import opened FibonacciForest
  import opened ShortestPaths
  import opened SubgraphStatus
  import opened LltcRrSubgraph
  import opened PreferredWays
  import opened SubgraphRoutes

  /** Every link of the primary path was last reported alike; other reports, and the order of all of them, may differ. */
  ghost predicate ToldAlike(rt: Routes, reports: seq<Report>, reports': seq<Report>) {
    forall i :: 0 < i < |rt.primPath.nodeIds| ==>
      LastReport(reports, rt.primPath.nodeIds[i - 1], rt.primPath.nodeIds[i]) == LastReport(reports', rt.primPath.nodeIds[i - 1], rt.primPath.nodeIds[i])
  }

  lemma SameUsable(a: RsgStruct, b: RsgStruct, u: int, l: VirLink)
    requires a.Valid() && b.Valid() && a.rt == b.rt && a.egress == b.egress && ToldAlike(a.rt, a.reports, b.reports)
    requires 0 <= u < |a.egress| && l in a.egress[u]
    ensures Usable(a.rt, a.linkStatusMap, u, l) <==> Usable(b.rt, b.linkStatusMap, u, l)
  {
    a.UsableMeans(u, l);
    b.UsableMeans(u, l);
    hide Usable, LastReport, Place, Fits, EgressOf, LinksRight, PathsRight, ZeroNormal;
    var ids, v := a.rt.primPath.nodeIds, Place(a.rt, l.nodeEgress);
    forall i | u < i <= v
      ensures LastReport(a.reports, ids[i - 1], ids[i]) == Failure <==> LastReport(b.reports, ids[i - 1], ids[i]) == Failure {}
  }

  lemma SameTables(a: RsgStruct, b: RsgStruct)
    requires a.Valid() && b.Valid() && a.rt == b.rt
    ensures a.egress == b.egress
  {
  }

  /** Told alike of the primary path, two routers search the same arcs, in the same order. */
  lemma SameArcs(a: RsgStruct, b: RsgStruct)
    requires a.Valid() && b.Valid() && a.rt == b.rt && ToldAlike(a.rt, a.reports, b.reports)
    ensures a.egress == b.egress && ArcsOf(a.rt, a.egress, a.linkStatusMap) == ArcsOf(b.rt, b.egress, b.linkStatusMap)
  {
    SameTables(a, b);
    hide Usable, RsgStruct.Valid, ArcFor, ToldAlike;
    forall u, l | 0 <= u < |a.egress| && l in a.egress[u]
      ensures Usable(a.rt, a.linkStatusMap, u, l) <==> Usable(b.rt, b.linkStatusMap, u, l)
    {
      SameUsable(a, b, u, l);
    }
  }

  /** The search may take a link of the primary path exactly if it was not last reported failed. */
  lemma PrimTaken(r: RsgStruct, i: int)
    requires r.Valid() && 0 < i < |r.egress| && |r.egress| == |r.rt.primPath.nodeIds| == |r.rt.primRatios| && r.rt.primRatios[i].Log?
    ensures ArcFor(r.rt, i - 1, PrimLink(r.rt, i)) in ArcsOf(r.rt, r.egress, r.linkStatusMap) <==>
            LastReport(r.reports, r.rt.primPath.nodeIds[i - 1], r.rt.primPath.nodeIds[i]) == Normal
  {
    var l := PrimLink(r.rt, i);
    InOrder(r);
    hide *;
    PrimListed(r.rt, r.egress, i);
    r.UsableMeans(i - 1, l);
    ArcUsable(r.rt, r.egress, r.linkStatusMap, i - 1, l);
  }

  lemma PrimListed(rt: Routes, egress: seq<seq<VirLink>>, i: int)
    requires EgressOf(rt, egress) && 0 < i < |egress| && |egress| == |rt.primPath.nodeIds| == |rt.primRatios|
    ensures PrimLink(rt, i) in egress[i - 1] && PrimLink(rt, i).isOnPrimPath && PrimLink(rt, i).succRatioInLog == rt.primRatios[i]
  {
    assert PrimAt(rt, i - 1, PrimLink(rt, i), |egress|);
  }

  /** If no link of the primary path has the ratio 0, two routers search the same arcs exactly if they were told alike of it. */
  lemma SameArcsExactly(a: RsgStruct, b: RsgStruct)
    requires a.Valid() && b.Valid() && a.rt == b.rt && |a.rt.primRatios| == |a.egress| == |a.rt.primPath.nodeIds|
    requires forall i :: 0 < i < |a.egress| ==> a.rt.primRatios[i].Log?
    ensures ArcsOf(a.rt, a.egress, a.linkStatusMap) == ArcsOf(b.rt, b.egress, b.linkStatusMap) <==> ToldAlike(a.rt, a.reports, b.reports)
  {
    hide RsgStruct.Valid, ArcsOf, LastReport, ArcFor, PrimLink;
    SameTables(a, b);
    if ToldAlike(a.rt, a.reports, b.reports) {
      SameArcs(a, b);
    }
    if ArcsOf(a.rt, a.egress, a.linkStatusMap) == ArcsOf(b.rt, b.egress, b.linkStatusMap) {
      forall i | 0 < i < |a.egress|
        ensures LastReport(a.reports, a.rt.primPath.nodeIds[i - 1], a.rt.primPath.nodeIds[i])
             == LastReport(b.reports, a.rt.primPath.nodeIds[i - 1], a.rt.primPath.nodeIds[i])
      {
        PrimTaken(a, i);
        PrimTaken(b, i);
      }
    }
  }

  /**
   * Every router of the primary path chooses its own link, from its own reports.  If all were told the same of the links of
   * the primary path, the packet goes along a route of the best success ratio to the destination whenever there is a route,
   * and stays at the source if there is none.
   */
  method DownLinks(routers: seq<RsgStruct>) returns (down: seq<int>)
    requires |routers| >= 1 && |routers| == |routers[0].egress|
    requires forall u :: 0 <= u < |routers| ==>
      routers[u].Valid() && routers[u].rt == routers[0].rt && ToldAlike(routers[0].rt, routers[0].reports, routers[u].reports)
    requires SumsFit(ArcsOf(routers[0].rt, routers[0].egress, routers[0].linkStatusMap))
    ensures EgressOf(routers[0].rt, routers[0].egress) && |down| == |routers|
    ensures var r, n := routers[0], |routers|; var nodes := Follow(r.rt, r.egress, down, 0);
            if SomeRoute(r.rt, r.reports, n - 1)
            then nodes != [] && nodes[|nodes| - 1] == n - 1 && exists hops :: BestRoute(r.rt, r.reports, hops, nodes)
            else nodes == [0]
  {
    hide *;
    var rt, n := routers[0].rt, |routers|;
    ghost var egress, m := routers[0].egress, routers[0].linkStatusMap;
    ghost var arcs := ArcsOf(rt, egress, m);
    ghost var info, trees := TreeTable(rt, arcs, egress), [];
    InOrder(routers[0]);
    EgressSizes(rt, egress);
    down := [];
    for u := 0 to n
      invariant |down| == |trees| == u && (u > 0 ==> |info| == n)
      invariant forall v :: 0 <= v < u ==> TreeOf(arcs, info, trees[v])
      invariant forall v :: 0 <= v < u ==> down[v] == LinksToward(trees[v], n - 1, v, rt.primPath.pathID).downLinkID
    {
      SameArcs(routers[0], routers[u]);
      FirstPlace(rt.primPath.nodeIds, u);
      var pl;
      ghost var table, paths;
      pl, table, paths := routers[u].ComputePreferredPathID(rt.primPath.nodeIds[u]);
      down, trees := down + [pl.downLinkID], trees + [paths];
    }
    DownsSize(rt, egress, trees);
    assert down == Downs(rt, egress, trees);
    HopByHopAlike(rt, egress, m, info, trees);
    ReachedMeans(routers[0], n - 1);
    if Reachable(arcs, 0, n - 1) {
      var hops := ShortestIsBest(routers[0], trees[0][n - 1], n - 1);
    }
  }

  lemma InOrder(r: RsgStruct)
    requires r.Valid()
    ensures EgressOf(r.rt, r.egress)
  {
  }

  lemma FirstPlace(ids: seq<int>, u: int)
    requires 0 <= u < |ids| && NoDup(ids)
    ensures ids[u] in ids && IndexOf(ids, ids[u]) == u
  {
  }
}
