/**
 * Timeouts, delays and losses in terms of what was given for each link in the direction of travel, whichever end it was
 * entered from.
 */
module DirectedRoutes {
  import opened Common
  import opened FibonacciForest
  import opened LltcGraph
  import opened RouteTiming
  import opened RedundantSubPaths

  /** `total` and `queue` hold the delays on the way from each node of the path to the next, at the place of the latter. */
  ghost predicate DelaysAlong(adj: Adjacency, nodeIds: seq<int>, total: seq<int>, queue: seq<int>) {
    && Route(adj, nodeIds) && |total| == |queue| == |nodeIds|
    && forall i :: 0 < i < |nodeIds| ==> DelaysInto(adj, nodeIds, i, total[i], queue[i])
  }

  ghost predicate DelaysInto(adj: Adjacency, nodeIds: seq<int>, i: int, total: int, queue: int)
    requires Route(adj, nodeIds) && 0 < i < |nodeIds|
  {
    Delays(LinkTo(adj, nodeIds, i), nodeIds[i - 1], nodeIds[i], total, queue)
  }

  /** The delays of a link are picked by the direction. */
  lemma Picked(e: LltcLink, u: int, v: int, total: int, queue: int)
    requires Delays(e, u, v, total, queue)
    ensures GetLinkDelayTotal(e, u, v) == total && GetLinkDelayQueue(e, u, v) == queue
  {
  }

  lemma {:induction false} SumsAlong(adj: Adjacency, nodeIds: seq<int>, total: seq<int>, queue: seq<int>, i: nat)
    requires DelaysAlong(adj, nodeIds, total, queue) && i < |nodeIds|
    ensures PathDelay(adj, nodeIds, i) == Sum(total, 1, i + 1) && QueueTime(adj, nodeIds, i) == Sum(queue, 1, i + 1)
  {
    hide Route, FindLink, GetLinkDelayTotal, GetLinkDelayQueue, Delays;
    if i == 0 {
    } else {
      SumsAlong(adj, nodeIds, total, queue, i - 1);
      SumSplit(total, 1, i, i + 1);
      SumSplit(queue, 1, i, i + 1);
      assert DelaysInto(adj, nodeIds, i, total[i], queue[i]);
      RouteLink(adj, nodeIds, i);
      Picked(LinkTo(adj, nodeIds, i), nodeIds[i - 1], nodeIds[i], total[i], queue[i]);
    }
  }

  /**
   * The timeouts by the delays in the direction of travel: a node waits for the next packet as long as packets may queue on
   * the way to it, and for an upstream node's report for the retransmissions between them and the queueing on that stretch.
   * For a report of losses it waits for the links' first delays, which are those of the directions they were entered in.
   */
  lemma TimeoutsAlong(adj: Adjacency, nodeIds: seq<int>, hrsp: map<int, seq<RedundantSubPath>>, t: Timeouts, total: seq<int>, queue: seq<int>)
    requires TimeoutsOf(adj, nodeIds, hrsp, t) && DelaysAlong(adj, nodeIds, total, queue)
    ensures |t.onNextPacket| == |t.onRetransReport| == |t.retransTimeouts| == |nodeIds| >= 1
    ensures t.primPathDelay == Sum(total, 1, |nodeIds|)
    ensures forall i :: 0 <= i < |nodeIds| ==> t.onNextPacket[i] == Sum(queue, 1, i + 1)
    ensures forall i, j :: 1 <= j < i < |nodeIds| ==>
              nodeIds[j] in t.onRetransReport[i] && t.onRetransReport[i][nodeIds[j]] == Sum(t.retransTimeouts, j, i) + Sum(queue, j + 1, i + 1)
    ensures forall first, i :: FirstDelays(adj, nodeIds, first) && 0 <= i < |nodeIds| == |t.onNextPacketForLostReport| ==>
              t.onNextPacketForLostReport[i] == Sum(first, 1, i + 1) + Sum(t.retransTimeouts, 0, i)
  {
    hide FirstDelays, Route, QueueTime, PathDelay, AbDelay, Sum, DelaysInto, IsRetransTimeout, ReportWaits;
    assert |nodeIds| >= 1 by { RouteSize(adj, nodeIds); }
    SumsAlong(adj, nodeIds, total, queue, |nodeIds| - 1);
    forall i | 0 <= i < |nodeIds| ensures t.onNextPacket[i] == Sum(queue, 1, i + 1) {
      SumsAlong(adj, nodeIds, total, queue, i);
    }
    forall i, j | 1 <= j < i < |nodeIds|
      ensures nodeIds[j] in t.onRetransReport[i] && t.onRetransReport[i][nodeIds[j]] == Sum(t.retransTimeouts, j, i) + Sum(queue, j + 1, i + 1)
    {
      WaitAt(adj, nodeIds, hrsp, t, i, j);
      SumsAlong(adj, nodeIds, total, queue, i);
      SumsAlong(adj, nodeIds, total, queue, j);
      SumSplit(queue, 1, j + 1, i + 1);
    }
    forall first, i | FirstDelays(adj, nodeIds, first) && 0 <= i < |nodeIds| == |t.onNextPacketForLostReport|
      ensures |first| == |nodeIds| && t.onNextPacketForLostReport[i] == Sum(first, 1, i + 1) + Sum(t.retransTimeouts, 0, i)
    {
      FirstSums(adj, nodeIds, first, i);
    }
  }

  ghost predicate FirstDelays(adj: Adjacency, nodeIds: seq<int>, first: seq<int>) {
    && Route(adj, nodeIds) && |first| == |nodeIds|
    && forall i :: 0 < i < |nodeIds| ==> first[i] == LinkTo(adj, nodeIds, i).abDelayTotal
  }

  lemma {:induction false} FirstSums(adj: Adjacency, nodeIds: seq<int>, first: seq<int>, i: nat)
    requires FirstDelays(adj, nodeIds, first) && i < |nodeIds|
    ensures |first| == |nodeIds| && AbDelay(adj, nodeIds, i) == Sum(first, 1, i + 1)
  {
    hide Route, FindLink;
    if i == 0 {
    } else {
      FirstSums(adj, nodeIds, first, i - 1);
      SumSplit(first, 1, i, i + 1);
    }
  }

  lemma RouteSize(adj: Adjacency, nodeIds: seq<int>)
    requires Route(adj, nodeIds)
    ensures |nodeIds| >= 1
  {
  }

  /** The delays on the way back, from each node to the one before it. */
  ghost predicate DelaysBack(adj: Adjacency, nodeIds: seq<int>, back: seq<int>, backQueue: seq<int>) {
    && Route(adj, nodeIds) && |back| == |backQueue| == |nodeIds|
    && forall i :: 0 < i < |nodeIds| ==> DelaysOutOf(adj, nodeIds, i, back[i], backQueue[i])
  }

  ghost predicate DelaysOutOf(adj: Adjacency, nodeIds: seq<int>, i: int, total: int, queue: int)
    requires Route(adj, nodeIds) && 0 < i < |nodeIds|
  {
    Delays(LinkTo(adj, nodeIds, i), nodeIds[i], nodeIds[i - 1], total, queue)
  }

  lemma {:induction false} SumsBack(adj: Adjacency, nodeIds: seq<int>, back: seq<int>, backQueue: seq<int>, i: nat)
    requires DelaysBack(adj, nodeIds, back, backQueue) && i < |nodeIds|
    ensures DownDelay(adj, nodeIds, i) == Sum(back, 1, i + 1)
  {
    hide Route, FindLink, GetLinkDelayTotal, Delays;
    if i == 0 {
    } else {
      SumsBack(adj, nodeIds, back, backQueue, i - 1);
      SumSplit(back, 1, i, i + 1);
      assert DelaysOutOf(adj, nodeIds, i, back[i], backQueue[i]);
      RouteLink(adj, nodeIds, i);
      Picked(LinkTo(adj, nodeIds, i), nodeIds[i], nodeIds[i - 1], back[i], backQueue[i]);
    }
  }

  /** A sub-path takes the delays up its links and down again, and as often as requests are made over it. */
  lemma SubPathAlong(adj: Adjacency, rsp: RedundantSubPath, numRetransRequests: nat, total: seq<int>, queue: seq<int>,
                     back: seq<int>, backQueue: seq<int>)
    requires RspFields(adj, rsp, numRetransRequests) && DelaysAlong(adj, rsp.nodeIds, total, queue) && DelaysBack(adj, rsp.nodeIds, back, backQueue)
    ensures 1 <= |rsp.nodeIds| == |total| == |back|
    ensures rsp.linkUpDelay == Sum(total, 1, |total|) && rsp.linkDownDelay == Sum(back, 1, |back|)
    ensures rsp.retransDelayInSingleTime == Sum(total, 1, |total|) + Sum(back, 1, |back|)
    ensures rsp.retransDelayInMultiTimes == rsp.retransDelayInSingleTime * numRetransRequests
  {
    hide Route, PathDelay, DownDelay, Sum, DelaysInto, DelaysOutOf, BothWays;
    RouteSize(adj, rsp.nodeIds);
    SumsAlong(adj, rsp.nodeIds, total, queue, |rsp.nodeIds| - 1);
    SumsBack(adj, rsp.nodeIds, back, backQueue, |rsp.nodeIds| - 1);
  }

  // -------------------------------------------------------------------------------- losses

  lemma PickedChances(e: LltcLink, u: int, v: int, forth: real, back: real)
    requires Chances(e, u, v, forth, back)
    ensures GetLinkRelia(e, u, v) == forth && GetLinkRelia(e, v, u) == back && e.abRelia * e.baRelia == forth * back
  {
  }

  /**
   * The loss of a hop: without requests and sub-paths, one minus the chance to get over in the direction of travel; each
   * request more multiplies it by the chance that the request or its answer is lost; each sub-path by the loss over it.
   */
  lemma HopLossMeans(e: LltcLink, u: int, v: int, forth: real, back: real, rsps: seq<RedundantSubPath>, r: RedundantSubPath, n: nat)
    requires Chances(e, u, v, forth, back)
    ensures Phi(e, u, v, [], 0) == 1.0 - forth
    ensures Phi(e, u, v, rsps, n + 1) == Phi(e, u, v, rsps, n) * (1.0 - forth * back)
    ensures Phi(e, u, v, rsps + [r], n) == Phi(e, u, v, rsps, n) * r.dataDeliveryLossRate
    ensures forth == 1.0 ==> Phi(e, u, v, rsps, n) == 0.0
  {
    hide *;
    PickedChances(e, u, v, forth, back);
    PlainLoss(e, u, v);
    NextLoss(e, u, v, rsps, n);
    SubPathsLoss(e, u, v, rsps, r, n);
    if forth == 1.0 { NoLinkLoss(e, u, v, rsps, n); }
  }

  lemma PlainLoss(e: LltcLink, u: int, v: int)
    ensures Phi(e, u, v, [], 0) == 1.0 - GetLinkRelia(e, u, v)
  {
    hide GetLinkRelia;
    assert LossProduct([]) == 1.0 && Pow(1.0 - GetLinkRelia(e, u, v) * GetLinkRelia(e, v, u), 0) == 1.0;
  }

  lemma NextLoss(e: LltcLink, u: int, v: int, rsps: seq<RedundantSubPath>, n: nat)
    ensures Phi(e, u, v, rsps, n + 1) == Phi(e, u, v, rsps, n) * (1.0 - GetLinkRelia(e, u, v) * GetLinkRelia(e, v, u))
  {
    hide *;
    PhiIs(e, u, v, rsps, n);
    PhiIs(e, u, v, rsps, n + 1);
    NextLinkLoss(e, u, v, n);
    Regrouped(LossProduct(rsps), LinkLoss(e, u, v, n), 1.0 - GetLinkRelia(e, u, v) * GetLinkRelia(e, v, u));
  }

  lemma NextLinkLoss(e: LltcLink, u: int, v: int, n: nat)
    ensures LinkLoss(e, u, v, n + 1) == LinkLoss(e, u, v, n) * (1.0 - GetLinkRelia(e, u, v) * GetLinkRelia(e, v, u))
  {
    hide GetLinkRelia, Pow;
    var x := 1.0 - GetLinkRelia(e, u, v) * GetLinkRelia(e, v, u);
    PowNext(x, n);
    Regrouped(1.0 - GetLinkRelia(e, u, v), Pow(x, n), x);
  }

  lemma SubPathsLoss(e: LltcLink, u: int, v: int, rsps: seq<RedundantSubPath>, r: RedundantSubPath, n: nat)
    ensures Phi(e, u, v, rsps + [r], n) == Phi(e, u, v, rsps, n) * r.dataDeliveryLossRate
  {
    hide *;
    PhiIs(e, u, v, rsps, n);
    PhiIs(e, u, v, rsps + [r], n);
    MoreLoss(rsps, r);
    Swapped(LossProduct(rsps), r.dataDeliveryLossRate, LinkLoss(e, u, v, n));
  }

  lemma NoLinkLoss(e: LltcLink, u: int, v: int, rsps: seq<RedundantSubPath>, n: nat)
    requires GetLinkRelia(e, u, v) == 1.0
    ensures Phi(e, u, v, rsps, n) == 0.0
  {
    hide GetLinkRelia, Pow, LossProduct;
    assert LinkLoss(e, u, v, n) == 0.0;
  }

  lemma Regrouped(a: real, b: real, x: real)
    ensures a * (b * x) == (a * b) * x
  {
  }

  lemma Swapped(a: real, r: real, l: real)
    ensures (a * r) * l == (a * l) * r
  {
  }

  /** The product of the entries from the second one to the n-th after it. */
  ghost function Product(s: seq<real>, n: nat): real
    requires n < |s|
  {
    if n == 0 then 1.0 else Product(s, n - 1) * s[n]
  }

  ghost predicate ChancesAlong(adj: Adjacency, nodeIds: seq<int>, forth: seq<real>, back: seq<real>) {
    && Route(adj, nodeIds) && |forth| == |back| == |nodeIds|
    && forall i :: 0 < i < |nodeIds| ==> ChancesInto(adj, nodeIds, i, forth[i], back[i])
  }

  ghost predicate ChancesInto(adj: Adjacency, nodeIds: seq<int>, i: int, forth: real, back: real)
    requires Route(adj, nodeIds) && 0 < i < |nodeIds|
  {
    Chances(LinkTo(adj, nodeIds, i), nodeIds[i - 1], nodeIds[i], forth, back)
  }

  /** Without sub-paths and requests, a packet gets through with the product of the chances in the direction of travel. */
  lemma {:induction false} PlainPasses(adj: Adjacency, nodeIds: seq<int>, forth: seq<real>, back: seq<real>, i: nat)
    requires ChancesAlong(adj, nodeIds, forth, back) && i < |nodeIds|
    ensures Passes(adj, nodeIds, map[], i, 0) == Product(forth, i)
  {
    hide Route, Chances, Phi;
    if i == 0 {
    } else {
      PlainPasses(adj, nodeIds, forth, back, i - 1);
      assert ChancesInto(adj, nodeIds, i, forth[i], back[i]);
      RouteLink(adj, nodeIds, i);
      HopLossMeans(LinkTo(adj, nodeIds, i), nodeIds[i - 1], nodeIds[i], forth[i], back[i], [], RedundantSubPath([], 0, 0, 0.0, 0, 0), 0);
    }
  }

  ghost function RoundTrips(forth: seq<real>, back: seq<real>, n: nat): real
    requires n < |forth| == |back|
  {
    if n == 0 then 1.0 else RoundTrips(forth, back, n - 1) * (forth[n] * back[n])
  }

  lemma {:induction false} BothWaysAlong(adj: Adjacency, nodeIds: seq<int>, forth: seq<real>, back: seq<real>, i: nat)
    requires ChancesAlong(adj, nodeIds, forth, back) && i < |nodeIds|
    ensures BothWays(adj, nodeIds, i) == RoundTrips(forth, back, i)
  {
    hide Route, Chances;
    if i == 0 {
    } else {
      BothWaysAlong(adj, nodeIds, forth, back, i - 1);
      assert ChancesInto(adj, nodeIds, i, forth[i], back[i]);
      RouteLink(adj, nodeIds, i);
      PickedChances(LinkTo(adj, nodeIds, i), nodeIds[i - 1], nodeIds[i], forth[i], back[i]);
    }
  }

  /** The loss over a sub-path: one minus the chance of a round trip for one request, and multiplied by that with each one more. */
  lemma SubPathLoss(adj: Adjacency, rsp: RedundantSubPath, more: RedundantSubPath, n: nat, forth: seq<real>, back: seq<real>)
    requires RspFields(adj, rsp, n) && RspFields(adj, more, n + 1) && more.nodeIds == rsp.nodeIds && ChancesAlong(adj, rsp.nodeIds, forth, back)
    ensures 1 <= |forth| == |back| && (n == 1 ==> rsp.dataDeliveryLossRate == 1.0 - RoundTrips(forth, back, |forth| - 1))
    ensures more.dataDeliveryLossRate == rsp.dataDeliveryLossRate * (1.0 - RoundTrips(forth, back, |forth| - 1))
  {
    hide *;
    LossIs(adj, rsp, n);
    LossIs(adj, more, n + 1);
    ChancesSize(adj, rsp.nodeIds, forth, back);
    BothWaysAlong(adj, rsp.nodeIds, forth, back, |forth| - 1);
    PowNext(1.0 - RoundTrips(forth, back, |forth| - 1), n);
  }

  lemma LossIs(adj: Adjacency, rsp: RedundantSubPath, n: nat)
    requires RspFields(adj, rsp, n)
    ensures Route(adj, rsp.nodeIds) && |rsp.nodeIds| >= 1 && rsp.dataDeliveryLossRate == Pow(1.0 - BothWays(adj, rsp.nodeIds, |rsp.nodeIds| - 1), n)
  {
    hide PathDelay, DownDelay, BothWays, Pow;
  }

  lemma ChancesSize(adj: Adjacency, nodeIds: seq<int>, forth: seq<real>, back: seq<real>)
    requires ChancesAlong(adj, nodeIds, forth, back)
    ensures |forth| == |back| == |nodeIds| >= 1
  {
  }

  lemma PowNext(x: real, n: nat)
    ensures Pow(x, n + 1) == Pow(x, n) * x && (n == 1 ==> Pow(x, n) == x)
  {
    assert n == 1 ==> Pow(x, n) == x * Pow(x, 0);
  }
}
