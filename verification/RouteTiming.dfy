/** Timeouts and loss rates computed along a primary path and its redundant sub-paths. */
module RouteTiming {
  import opened Common
  import opened FibonacciForest
  import opened LltcGraph

  datatype RedundantSubPath = RedundantSubPath(nodeIds: seq<int>, linkUpDelay: int, linkDownDelay: int, dataDeliveryLossRate: real,
                                               retransDelayInMultiTimes: int, retransDelayInSingleTime: int)

  /** What is computed for each node of the primary path, by position; the last table is keyed by upstream node. */
  datatype Timeouts = Timeouts(primPathDelay: int, retransTimeouts: seq<int>, onNextPacket: seq<int>, onNextPacketForLostReport: seq<int>,
                               onRetransReport: seq<map<int, int>>)

  /** The nodes of a path: all different, each joined to the next one. */
  ghost predicate Route(adj: Adjacency, nodeIds: seq<int>) {
    && |nodeIds| >= 1 && NoDup(nodeIds) && Ends(adj, |adj|)
    && (forall i :: 0 <= i < |nodeIds| ==> 0 <= nodeIds[i] < |adj|)
    && (forall i :: 0 < i < |nodeIds| ==> FindLink(adj[nodeIds[i - 1]], nodeIds[i]).Some?)
  }

  function LinkTo(adj: Adjacency, nodeIds: seq<int>, i: int): LltcLink
    requires 0 < i < |nodeIds| && 0 <= nodeIds[i - 1] < |adj| && FindLink(adj[nodeIds[i - 1]], nodeIds[i]).Some?
  {
    FindLink(adj[nodeIds[i - 1]], nodeIds[i]).value
  }

  ghost predicate Joins(e: LltcLink, u: int, v: int) {
    (e.nodeA == u && e.nodeB == v) || (e.nodeA == v && e.nodeB == u)
  }

  lemma RouteLink(adj: Adjacency, nodeIds: seq<int>, i: int)
    requires Route(adj, nodeIds) && 0 < i < |nodeIds|
    ensures 0 <= nodeIds[i - 1] < |adj| && 0 <= nodeIds[i] < |adj| && nodeIds[i - 1] != nodeIds[i]
    ensures FindLink(adj[nodeIds[i - 1]], nodeIds[i]).Some?
    ensures LinkTo(adj, nodeIds, i) in adj[nodeIds[i - 1]] && Joins(LinkTo(adj, nodeIds, i), nodeIds[i - 1], nodeIds[i])
  {
  }

  /** Queueing time a packet may gather on its way to the i-th node. */
  ghost function QueueTime(adj: Adjacency, nodeIds: seq<int>, i: nat): int
    requires Route(adj, nodeIds) && i < |nodeIds|
  {
    if i == 0 then 0 else QueueTime(adj, nodeIds, i - 1) + GetLinkDelayQueue(LinkTo(adj, nodeIds, i), nodeIds[i - 1], nodeIds[i])
  }

  ghost function PathDelay(adj: Adjacency, nodeIds: seq<int>, i: nat): int
    requires Route(adj, nodeIds) && i < |nodeIds|
  {
    if i == 0 then 0 else PathDelay(adj, nodeIds, i - 1) + GetLinkDelayTotal(LinkTo(adj, nodeIds, i), nodeIds[i - 1], nodeIds[i])
  }

  ghost function AbDelay(adj: Adjacency, nodeIds: seq<int>, i: nat): int
    requires Route(adj, nodeIds) && i < |nodeIds|
  {
    if i == 0 then 0 else AbDelay(adj, nodeIds, i - 1) + LinkTo(adj, nodeIds, i).abDelayTotal
  }

  ghost function Sum(s: seq<int>, lo: int, hi: int): int
    requires 0 <= lo <= hi <= |s|
    decreases hi - lo
  {
    if lo == hi then 0 else s[lo] + Sum(s, lo + 1, hi)
  }

  lemma {:induction false} SumSplit(s: seq<int>, lo: int, mid: int, hi: int)
    requires 0 <= lo <= mid <= hi <= |s|
    ensures Sum(s, lo, hi) == Sum(s, lo, mid) + Sum(s, mid, hi)
    decreases mid - lo
  {
    if lo == mid {
    } else {
      SumSplit(s, lo + 1, mid, hi);
    }
  }

  lemma {:induction false} SumNatural(s: seq<int>, lo: int, hi: int)
    requires 0 <= lo <= hi <= |s| && forall i :: 0 <= i < |s| ==> s[i] >= 0
    ensures Sum(s, lo, hi) >= 0
    decreases hi - lo
  {
    if lo == hi {
    } else {
      SumNatural(s, lo + 1, hi);
    }
  }

  function RspsOf(hrsp: map<int, seq<RedundantSubPath>>, nodeId: int): seq<RedundantSubPath> {
    if nodeId in hrsp then hrsp[nodeId] else []
  }

  /** The longest time the sub-paths of a node may take; without sub-paths the entry stays zero. */
  ghost predicate IsRetransTimeout(rsps: seq<RedundantSubPath>, t: int) {
    if rsps == [] then t == 0
    else t >= -1 && (forall r :: r in rsps ==> r.retransDelayInMultiTimes <= t) && (t == -1 || exists r :: r in rsps && r.retransDelayInMultiTimes == t)
  }

  /** The timeouts as sums over the primary path. */
  ghost predicate TimeoutsOf(adj: Adjacency, nodeIds: seq<int>, hrsp: map<int, seq<RedundantSubPath>>, t: Timeouts) {
    && Route(adj, nodeIds)
    && var n := |nodeIds|;
    && |t.retransTimeouts| == |t.onNextPacket| == |t.onNextPacketForLostReport| == |t.onRetransReport| == n
    && t.primPathDelay == PathDelay(adj, nodeIds, n - 1)
    && t.retransTimeouts[0] == 0
    && (forall i :: 0 < i < n ==> IsRetransTimeout(RspsOf(hrsp, nodeIds[i]), t.retransTimeouts[i]))
    && (forall i :: 0 <= i < n ==> t.onNextPacket[i] == QueueTime(adj, nodeIds, i))
    && (forall i :: 0 <= i < n ==> t.onNextPacketForLostReport[i] == AbDelay(adj, nodeIds, i) + Sum(t.retransTimeouts, 0, i))
    && (forall i :: 0 <= i < n ==> ReportWaits(adj, nodeIds, t.retransTimeouts, i, 1, t.onRetransReport[i]))
  }

  /** `w` holds, for every upstream node from position `from` on, the time the i-th node waits for its report. */
  ghost predicate ReportWaits(adj: Adjacency, nodeIds: seq<int>, timeouts: seq<int>, i: int, from: int, w: map<int, int>)
    requires Route(adj, nodeIds) && 0 <= i < |nodeIds| == |timeouts|
  {
    && (forall j :: 1 <= from <= j < i ==> nodeIds[j] in w)
    && (forall j :: 1 <= from <= j < i ==> w[nodeIds[j]] == Sum(timeouts, j, i) + QueueTime(adj, nodeIds, i) - QueueTime(adj, nodeIds, j))
    && (forall v :: v in w ==> exists j :: 1 <= from <= j < i && v == nodeIds[j])
  }

  method MaxRetransTimeout(rsps: seq<RedundantSubPath>) returns (maxTimeoutForRetrans: int)
    requires rsps != []
    ensures IsRetransTimeout(rsps, maxTimeoutForRetrans)
  {
    maxTimeoutForRetrans := -1;
    for i := 0 to |rsps|
      invariant maxTimeoutForRetrans >= -1
      invariant forall r :: r in rsps[..i] ==> r.retransDelayInMultiTimes <= maxTimeoutForRetrans
      invariant maxTimeoutForRetrans == -1 || exists r :: r in rsps && r.retransDelayInMultiTimes == maxTimeoutForRetrans
    {
      assert rsps[..i + 1] == rsps[..i] + [rsps[i]];
      if rsps[i].retransDelayInMultiTimes > maxTimeoutForRetrans {
        maxTimeoutForRetrans := rsps[i].retransDelayInMultiTimes;
      }
    }
    assert rsps[..|rsps|] == rsps;
  }

  method ComputeRetranTimes(g: LltcGraph, nodeIds: seq<int>, hrsp: map<int, seq<RedundantSubPath>>) returns (t: Timeouts)
    requires Route(g.eLinks, nodeIds)
    ensures TimeoutsOf(g.eLinks, nodeIds, hrsp, t)
  {
    hide NoDup, Ends, IsRetransTimeout, ReportWaits, QueueTime, PathDelay, AbDelay, Sum;
    var primPathDelay, maxCulQueueTimesInUs, retransTimeouts := QueueAndRetransTimes(g, nodeIds, hrsp);
    var onNextPacket, onNextPacketForLostReport, onRetransReport := WaitingTimes(g, nodeIds, maxCulQueueTimesInUs, retransTimeouts);
    t := Timeouts(primPathDelay, retransTimeouts, onNextPacket, onNextPacketForLostReport, onRetransReport);
  }

  method QueueAndRetransTimes(g: LltcGraph, nodeIds: seq<int>, hrsp: map<int, seq<RedundantSubPath>>)
    returns (primPathDelay: int, maxCulQueueTimesInUs: seq<int>, retransTimeouts: seq<int>)
    requires Route(g.eLinks, nodeIds) && |nodeIds| >= 1
    ensures |maxCulQueueTimesInUs| == |retransTimeouts| == |nodeIds| && retransTimeouts[0] == 0
    ensures primPathDelay == PathDelay(g.eLinks, nodeIds, |nodeIds| - 1)
    ensures forall j :: 0 <= j < |nodeIds| ==> maxCulQueueTimesInUs[j] == QueueTime(g.eLinks, nodeIds, j)
    ensures forall j :: 0 < j < |nodeIds| ==> IsRetransTimeout(RspsOf(hrsp, nodeIds[j]), retransTimeouts[j])
  {
    hide *;
    SumsStart(g.eLinks, nodeIds);
    var n := |nodeIds|;
    maxCulQueueTimesInUs, retransTimeouts := seq(n, _ => 0), seq(n, _ => 0);
    var culQueueTimeInUs := 0;
    primPathDelay := 0;
    for i := 1 to n
      invariant |maxCulQueueTimesInUs| == |retransTimeouts| == n && retransTimeouts[0] == 0
      invariant culQueueTimeInUs == QueueTime(g.eLinks, nodeIds, i - 1) && primPathDelay == PathDelay(g.eLinks, nodeIds, i - 1)
      invariant forall j :: 0 <= j < i ==> maxCulQueueTimesInUs[j] == QueueTime(g.eLinks, nodeIds, j)
      invariant forall j :: 0 < j < i ==> IsRetransTimeout(RspsOf(hrsp, nodeIds[j]), retransTimeouts[j])
      invariant forall j :: i <= j < n ==> retransTimeouts[j] == 0
    {
      SumsStep(g.eLinks, nodeIds, i);
      var l := g.GetLinkByNodeIds(nodeIds[i - 1], nodeIds[i]);
      culQueueTimeInUs := culQueueTimeInUs + GetLinkDelayQueue(l.value, nodeIds[i - 1], nodeIds[i]);
      primPathDelay := primPathDelay + GetLinkDelayTotal(l.value, nodeIds[i - 1], nodeIds[i]);
      maxCulQueueTimesInUs := maxCulQueueTimesInUs[i := culQueueTimeInUs];
      var rsps := RspsOf(hrsp, nodeIds[i]);
      if |rsps| == 0 {
        NoTimeout();
        assert rsps == [];
      } else {
        var maxTimeoutForRetrans := MaxRetransTimeout(rsps);
        retransTimeouts := retransTimeouts[i := maxTimeoutForRetrans];
      }
    }
  }

  method WaitingTimes(g: LltcGraph, nodeIds: seq<int>, maxCulQueueTimesInUs: seq<int>, retransTimeouts: seq<int>)
    returns (onNextPacket: seq<int>, onNextPacketForLostReport: seq<int>, onRetransReport: seq<map<int, int>>)
    requires Route(g.eLinks, nodeIds) && |nodeIds| >= 1 && |maxCulQueueTimesInUs| == |retransTimeouts| == |nodeIds|
    requires forall j :: 0 <= j < |nodeIds| ==> maxCulQueueTimesInUs[j] == QueueTime(g.eLinks, nodeIds, j)
    ensures |onNextPacket| == |onNextPacketForLostReport| == |onRetransReport| == |nodeIds|
    ensures forall j :: 0 <= j < |nodeIds| ==> onNextPacket[j] == QueueTime(g.eLinks, nodeIds, j)
    ensures forall j :: 0 <= j < |nodeIds| ==> onNextPacketForLostReport[j] == AbDelay(g.eLinks, nodeIds, j) + Sum(retransTimeouts, 0, j)
    ensures forall j :: 0 <= j < |nodeIds| ==> ReportWaits(g.eLinks, nodeIds, retransTimeouts, j, 1, onRetransReport[j])
  {
    hide *;
    SumsStart(g.eLinks, nodeIds);
    NothingSummed(retransTimeouts);
    var n := |nodeIds|;
    onNextPacket, onNextPacketForLostReport, onRetransReport := seq(n, _ => 0), seq(n, _ => 0), seq(n, _ => map[]);
    NoWaits(g.eLinks, nodeIds, retransTimeouts);
    var culRetransTimeout, maxPrimPathDelays := 0, 0;
    for i := 1 to n
      invariant |onNextPacket| == |onNextPacketForLostReport| == |onRetransReport| == n
      invariant culRetransTimeout == Sum(retransTimeouts, 0, i - 1) && maxPrimPathDelays == AbDelay(g.eLinks, nodeIds, i - 1)
      invariant forall j :: 0 <= j < i ==> onNextPacket[j] == QueueTime(g.eLinks, nodeIds, j)
      invariant forall j :: 0 <= j < i ==> onNextPacketForLostReport[j] == AbDelay(g.eLinks, nodeIds, j) + Sum(retransTimeouts, 0, j)
      invariant forall j :: 0 <= j < i ==> ReportWaits(g.eLinks, nodeIds, retransTimeouts, j, 1, onRetransReport[j])
    {
      SumsStep(g.eLinks, nodeIds, i);
      OneMoreSummed(retransTimeouts, i);
      culRetransTimeout := culRetransTimeout + retransTimeouts[i - 1];
      onNextPacket := onNextPacket[i := maxCulQueueTimesInUs[i]];
      var e := g.GetLinkByNodeIds(nodeIds[i - 1], nodeIds[i]);
      maxPrimPathDelays := maxPrimPathDelays + e.value.abDelayTotal;
      onNextPacketForLostReport := onNextPacketForLostReport[i := maxPrimPathDelays + culRetransTimeout];
      var w := WaitForReports(g.eLinks, nodeIds, retransTimeouts, maxCulQueueTimesInUs, i);
      onRetransReport := onRetransReport[i := w];
    }
  }

  lemma SumsStart(adj: Adjacency, nodeIds: seq<int>)
    requires Route(adj, nodeIds)
    ensures |nodeIds| >= 1 && QueueTime(adj, nodeIds, 0) == 0 && PathDelay(adj, nodeIds, 0) == 0 && AbDelay(adj, nodeIds, 0) == 0
  {
  }

  lemma SumsStep(adj: Adjacency, nodeIds: seq<int>, i: int)
    requires Route(adj, nodeIds) && 0 < i < |nodeIds|
    ensures 0 <= nodeIds[i - 1] < |adj| && FindLink(adj[nodeIds[i - 1]], nodeIds[i]).Some?
    ensures var e := FindLink(adj[nodeIds[i - 1]], nodeIds[i]).value;
            && QueueTime(adj, nodeIds, i) == QueueTime(adj, nodeIds, i - 1) + GetLinkDelayQueue(e, nodeIds[i - 1], nodeIds[i])
            && PathDelay(adj, nodeIds, i) == PathDelay(adj, nodeIds, i - 1) + GetLinkDelayTotal(e, nodeIds[i - 1], nodeIds[i])
            && AbDelay(adj, nodeIds, i) == AbDelay(adj, nodeIds, i - 1) + e.abDelayTotal
  {
    RouteLink(adj, nodeIds, i);
    hide Route, FindLink, GetLinkDelayQueue, GetLinkDelayTotal;
  }

  lemma NothingSummed(s: seq<int>)
    ensures Sum(s, 0, 0) == 0
  {
  }

  lemma OneMoreSummed(s: seq<int>, i: int)
    requires 0 < i <= |s|
    ensures Sum(s, 0, i) == Sum(s, 0, i - 1) + s[i - 1]
  {
    SumSplit(s, 0, i - 1, i);
  }

  lemma NoWaits(adj: Adjacency, nodeIds: seq<int>, timeouts: seq<int>)
    requires Route(adj, nodeIds) && |nodeIds| == |timeouts| && |nodeIds| > 0
    ensures ReportWaits(adj, nodeIds, timeouts, 0, 1, map[]) && QueueTime(adj, nodeIds, 0) == 0
  {
  }

  lemma NoTimeout()
    ensures IsRetransTimeout([], 0)
  {
  }

  /** The inner loop: from the i-th node back to the second one. */
  method WaitForReports(ghost adj: Adjacency, nodeIds: seq<int>, retransTimeouts: seq<int>, maxCulQueueTimesInUs: seq<int>, i: int) returns (w: map<int, int>)
    requires Route(adj, nodeIds) && 1 <= i < |nodeIds| == |retransTimeouts| == |maxCulQueueTimesInUs|
    requires forall j :: 0 <= j <= i ==> maxCulQueueTimesInUs[j] == QueueTime(adj, nodeIds, j)
    ensures ReportWaits(adj, nodeIds, retransTimeouts, i, 1, w)
  {
    hide Ends, QueueTime;
    w := map[];
    var culRetransTimeoutAtNodeJ := 0;
    var j := i - 1;
    while j >= 1
      invariant 0 <= j < i && culRetransTimeoutAtNodeJ == Sum(retransTimeouts, j + 1, i)
      invariant ReportWaits(adj, nodeIds, retransTimeouts, i, j + 1, w)
    {
      culRetransTimeoutAtNodeJ := culRetransTimeoutAtNodeJ + retransTimeouts[j];
      assert forall k :: j < k < i ==> nodeIds[k] != nodeIds[j];
      w := w[nodeIds[j] := culRetransTimeoutAtNodeJ + maxCulQueueTimesInUs[i] - maxCulQueueTimesInUs[j]];
      j := j - 1;
    }
  }

  // ------------------------------------------------------------- waiting for reports

  lemma WaitAt(adj: Adjacency, nodeIds: seq<int>, hrsp: map<int, seq<RedundantSubPath>>, t: Timeouts, i: int, j: int)
    requires TimeoutsOf(adj, nodeIds, hrsp, t) && 1 <= j < i < |nodeIds|
    ensures Route(adj, nodeIds) && |t.onRetransReport| == |t.retransTimeouts| == |nodeIds| && nodeIds[j] in t.onRetransReport[i]
    ensures t.onRetransReport[i][nodeIds[j]] == Sum(t.retransTimeouts, j, i) + QueueTime(adj, nodeIds, i) - QueueTime(adj, nodeIds, j)
  {
    hide Route, QueueTime, Sum, IsRetransTimeout;
    assert ReportWaits(adj, nodeIds, t.retransTimeouts, i, 1, t.onRetransReport[i]);
  }

  /** Waiting times add up along the primary path. */
  lemma WaitsAdd(adj: Adjacency, nodeIds: seq<int>, hrsp: map<int, seq<RedundantSubPath>>, t: Timeouts, i: int, m: int, j: int)
    requires TimeoutsOf(adj, nodeIds, hrsp, t) && 1 <= j < m < i < |nodeIds|
    ensures nodeIds[j] in t.onRetransReport[i] && nodeIds[m] in t.onRetransReport[i] && nodeIds[j] in t.onRetransReport[m]
    ensures t.onRetransReport[i][nodeIds[j]] == t.onRetransReport[i][nodeIds[m]] + t.onRetransReport[m][nodeIds[j]]
  {
    hide TimeoutsOf, Route, QueueTime, Sum;
    WaitAt(adj, nodeIds, hrsp, t, i, j);
    WaitAt(adj, nodeIds, hrsp, t, i, m);
    WaitAt(adj, nodeIds, hrsp, t, m, j);
    SumSplit(t.retransTimeouts, j, m, i);
  }

  ghost predicate QueuesNatural(adj: Adjacency) {
    forall u, e {:trigger e in adj[u]} :: 0 <= u < |adj| && e in adj[u] ==> e.abDelayQueue >= 0 && e.baDelayQueue >= 0
  }

  ghost predicate RetransNatural(hrsp: map<int, seq<RedundantSubPath>>) {
    forall v, r {:trigger r in hrsp[v]} :: v in hrsp && r in hrsp[v] ==> r.retransDelayInMultiTimes >= 0
  }

  lemma {:induction false} QueueTimeGrows(adj: Adjacency, nodeIds: seq<int>, j: nat, i: nat)
    requires Route(adj, nodeIds) && QueuesNatural(adj) && j <= i < |nodeIds|
    ensures QueueTime(adj, nodeIds, j) <= QueueTime(adj, nodeIds, i)
    decreases i
  {
    hide Route, FindLink;
    if j == i {
    } else {
      QueueTimeGrows(adj, nodeIds, j, i - 1);
      RouteLink(adj, nodeIds, i);
    }
  }

  lemma TimeoutsNatural(adj: Adjacency, nodeIds: seq<int>, hrsp: map<int, seq<RedundantSubPath>>, t: Timeouts)
    requires TimeoutsOf(adj, nodeIds, hrsp, t) && RetransNatural(hrsp)
    ensures |t.retransTimeouts| == |nodeIds|
    ensures forall i :: 0 <= i < |nodeIds| ==> t.retransTimeouts[i] >= 0
  {
    forall i | 0 < i < |nodeIds| ensures t.retransTimeouts[i] >= 0 {
      var rsps := RspsOf(hrsp, nodeIds[i]);
      assert IsRetransTimeout(rsps, t.retransTimeouts[i]);
      if rsps != [] {
        assert rsps[0] in hrsp[nodeIds[i]];
      }
    }
  }

  /** A node waits no less for a reporter further upstream, and never a negative time. */
  lemma WaitsGrow(adj: Adjacency, nodeIds: seq<int>, hrsp: map<int, seq<RedundantSubPath>>, t: Timeouts, i: int, m: int, j: int)
    requires TimeoutsOf(adj, nodeIds, hrsp, t) && QueuesNatural(adj) && RetransNatural(hrsp) && 1 <= j <= m < i < |nodeIds|
    ensures nodeIds[j] in t.onRetransReport[i] && nodeIds[m] in t.onRetransReport[i]
    ensures t.onRetransReport[i][nodeIds[j]] >= t.onRetransReport[i][nodeIds[m]] >= 0
  {
    WaitAt(adj, nodeIds, hrsp, t, i, j);
    WaitAt(adj, nodeIds, hrsp, t, i, m);
    TimeoutsNatural(adj, nodeIds, hrsp, t);
    hide TimeoutsOf, Route, QueueTime, Sum, QueuesNatural, RetransNatural;
    SumSplit(t.retransTimeouts, j, m, i);
    SumNatural(t.retransTimeouts, j, m);
    SumNatural(t.retransTimeouts, m, i);
    QueueTimeGrows(adj, nodeIds, j, m);
    QueueTimeGrows(adj, nodeIds, m, i);
  }

  // --------------------------------------------------------------------- loss rates

  function Pow(x: real, n: nat): real {
    if n == 0 then 1.0 else x * Pow(x, n - 1)
  }

  ghost predicate Rate(x: real) {
    0.0 <= x <= 1.0
  }

  lemma RateProduct(x: real, y: real)
    requires Rate(x) && Rate(y)
    ensures Rate(x * y) && x * y <= x
  {
  }

  lemma {:induction false} RatePow(x: real, n: nat)
    requires Rate(x)
    ensures Rate(Pow(x, n))
  {
    if n == 0 {
    } else {
      RatePow(x, n - 1);
      RateProduct(x, Pow(x, n - 1));
    }
  }

  ghost function LossProduct(rsps: seq<RedundantSubPath>): real {
    if rsps == [] then 1.0 else LossProduct(rsps[..|rsps| - 1]) * rsps[|rsps| - 1].dataDeliveryLossRate
  }

  /** The probability that a packet is lost on the link and on every attempt to get it again there. */
  function LinkLoss(e: LltcLink, u: int, v: int, numRetransRequests: nat): real {
    HopLoss(GetLinkRelia(e, u, v), GetLinkRelia(e, v, u), numRetransRequests)
  }

  function HopLoss(uvRelia: real, vuRelia: real, numRetransRequests: nat): real {
    (1.0 - uvRelia) * Pow(1.0 - uvRelia * vuRelia, numRetransRequests)
  }

  ghost function Phi(e: LltcLink, u: int, v: int, rsps: seq<RedundantSubPath>, numRetransRequests: nat): real {
    LossProduct(rsps) * LinkLoss(e, u, v, numRetransRequests)
  }

  ghost function Counted(rsps: seq<RedundantSubPath>, only: Option<set<RedundantSubPath>>): seq<RedundantSubPath> {
    if only.None? || rsps == [] then rsps
    else
      var init, last := rsps[..|rsps| - 1], rsps[|rsps| - 1];
      Counted(init, only) + if last in only.value then [last] else []
  }

  /** What counts is in the order of the sub-paths, as often as it is there, and nothing outside the set. */
  lemma {:induction false} CountedMeans(rsps: seq<RedundantSubPath>, only: set<RedundantSubPath>, r: RedundantSubPath)
    ensures multiset(Counted(rsps, Some(only)))[r] == if r in only then multiset(rsps)[r] else 0
  {
    if rsps == [] {
    } else {
      var init, last := rsps[..|rsps| - 1], rsps[|rsps| - 1];
      CountedMeans(init, only, r);
      assert rsps == init + [last];
      assert multiset(rsps) == multiset(init) + multiset{last};
    }
  }

  lemma MoreCounted(rsps: seq<RedundantSubPath>, r: RedundantSubPath, only: Option<set<RedundantSubPath>>)
    ensures Counted(rsps + [r], only) == Counted(rsps, only) + if only.None? || r in only.value then [r] else []
  {
    assert (rsps + [r])[..|rsps|] == rsps;
    if only.None? {
      assert Counted(rsps + [r], only) == rsps + [r] && Counted(rsps, only) == rsps;
    }
  }

  /** Given a set of sub-paths, only those in it are counted; no caller gives one. */
  method ComputePHI(e: LltcLink, u: int, v: int, rsps: seq<RedundantSubPath>, rspsInvalid: Option<set<RedundantSubPath>>, numRetransRequests: nat)
    returns (r: real)
    ensures rspsInvalid.None? ==> r == Phi(e, u, v, rsps, numRetransRequests)
    ensures r == Phi(e, u, v, Counted(rsps, rspsInvalid), numRetransRequests)
  {
    hide *;
    r := 1.0;
    NoneCounted(rsps, rspsInvalid);
    for i := 0 to |rsps|
      invariant r == LossProduct(Counted(rsps[..i], rspsInvalid))
    {
      MoreCounted(rsps[..i], rsps[i], rspsInvalid);
      assert rsps[..i + 1] == rsps[..i] + [rsps[i]];
      if rspsInvalid.Some? && rsps[i] !in rspsInvalid.value {
        assert Counted(rsps[..i + 1], rspsInvalid) == Counted(rsps[..i], rspsInvalid);
        continue;
      }
      MoreLoss(Counted(rsps[..i], rspsInvalid), rsps[i]);
      r := r * rsps[i].dataDeliveryLossRate;
    }
    assert rsps[..|rsps|] == rsps;
    PhiIs(e, u, v, Counted(rsps, rspsInvalid), numRetransRequests);
    AllCounted(rsps, rspsInvalid);
    r := r * LinkLoss(e, u, v, numRetransRequests);
  }

  lemma NoneCounted(rsps: seq<RedundantSubPath>, only: Option<set<RedundantSubPath>>)
    ensures LossProduct(Counted(rsps[..0], only)) == 1.0
  {
  }

  lemma AllCounted(rsps: seq<RedundantSubPath>, only: Option<set<RedundantSubPath>>)
    ensures only.None? ==> Counted(rsps, only) == rsps
  {
  }

  lemma PhiIs(e: LltcLink, u: int, v: int, rsps: seq<RedundantSubPath>, numRetransRequests: nat)
    ensures Phi(e, u, v, rsps, numRetransRequests) == LossProduct(rsps) * LinkLoss(e, u, v, numRetransRequests)
  {
  }

  ghost function PhiAt(adj: Adjacency, nodeIds: seq<int>, hrsp: map<int, seq<RedundantSubPath>>, i: nat, numRetransRequests: nat): real
    requires Route(adj, nodeIds) && 0 < i < |nodeIds|
  {
    Phi(LinkTo(adj, nodeIds, i), nodeIds[i - 1], nodeIds[i], RspsOf(hrsp, nodeIds[i]), numRetransRequests)
  }

  /** The probability that a packet passes the first i hops, if losses are independent. */
  ghost function Passes(adj: Adjacency, nodeIds: seq<int>, hrsp: map<int, seq<RedundantSubPath>>, i: nat, numRetransRequests: nat): real
    requires Route(adj, nodeIds) && i < |nodeIds|
  {
    if i == 0 then 1.0
    else Passes(adj, nodeIds, hrsp, i - 1, numRetransRequests) * (1.0 - PhiAt(adj, nodeIds, hrsp, i, numRetransRequests))
  }

  /** The end-to-end loss rate is what the product of the hops' success rates leaves to one. */
  method ComputeResilientRouteEEFR(g: LltcGraph, nodeIds: seq<int>, hrsp: map<int, seq<RedundantSubPath>>, numRetransRequests: nat)
    returns (lossRate: real)
    requires Route(g.eLinks, nodeIds) && |nodeIds| >= 1
    ensures lossRate == 1.0 - Passes(g.eLinks, nodeIds, hrsp, |nodeIds| - 1, numRetransRequests)
  {
    hide Route, FindLink, LinkLoss, LossProduct;
    lossRate := 0.0;
    var PSI, PSIprev, PHI, PHIprev := 0.0, 1.0, 0.0, 0.0;
    for i := 1 to |nodeIds|
      invariant PSIprev * (1.0 - PHIprev) == Passes(g.eLinks, nodeIds, hrsp, i - 1, numRetransRequests)
      invariant lossRate == 1.0 - Passes(g.eLinks, nodeIds, hrsp, i - 1, numRetransRequests)
    {
      RouteLink(g.eLinks, nodeIds, i);
      var u, v := nodeIds[i - 1], nodeIds[i];
      var e := g.GetLinkByNodeIds(u, v);
      if v in hrsp {
        PHI := ComputePHI(e.value, u, v, hrsp[v], None, numRetransRequests);
      } else {
        PHI := LinkLoss(e.value, u, v, numRetransRequests);
        NoSubPaths(e.value, u, v, numRetransRequests);
      }
      assert PHI == PhiAt(g.eLinks, nodeIds, hrsp, i, numRetransRequests);
      PSI := PSIprev * (1.0 - PHIprev);
      PassesStep(Passes(g.eLinks, nodeIds, hrsp, i - 1, numRetransRequests), PSI, PHI, lossRate);
      lossRate := lossRate + PSI * PHI;
      PSIprev := PSI;
      PHIprev := PHI;
    }
  }

  lemma NoSubPaths(e: LltcLink, u: int, v: int, numRetransRequests: nat)
    ensures Phi(e, u, v, [], numRetransRequests) == LinkLoss(e, u, v, numRetransRequests)
  {
  }

  lemma PassesStep(passes: real, psi: real, phi: real, lossRate: real)
    requires psi == passes && lossRate == 1.0 - passes
    ensures lossRate + psi * phi == 1.0 - passes * (1.0 - phi)
  {
  }

  ghost predicate Reliable(adj: Adjacency) {
    forall u, e {:trigger e in adj[u]} :: 0 <= u < |adj| && e in adj[u] ==> Rate(e.abRelia) && Rate(e.baRelia)
  }

  ghost predicate LossRates(hrsp: map<int, seq<RedundantSubPath>>) {
    forall v, r {:trigger r in hrsp[v]} :: v in hrsp && r in hrsp[v] ==> Rate(r.dataDeliveryLossRate)
  }

  lemma {:induction false} LossProductRate(rsps: seq<RedundantSubPath>)
    requires forall r :: r in rsps ==> Rate(r.dataDeliveryLossRate)
    ensures Rate(LossProduct(rsps))
  {
    if rsps == [] {
    } else {
      LossProductRate(rsps[..|rsps| - 1]);
      RateProduct(LossProduct(rsps[..|rsps| - 1]), rsps[|rsps| - 1].dataDeliveryLossRate);
    }
  }

  lemma LossRate(uv: real, vu: real, n: nat)
    requires Rate(uv) && Rate(vu)
    ensures Rate(HopLoss(uv, vu, n))
  {
    RateProduct(uv, vu);
    RatePow(1.0 - uv * vu, n);
    RateProduct(1.0 - uv, Pow(1.0 - uv * vu, n));
  }

  lemma LinkLossRate(e: LltcLink, u: int, v: int, numRetransRequests: nat)
    requires Rate(GetLinkRelia(e, u, v)) && Rate(GetLinkRelia(e, v, u))
    ensures Rate(LinkLoss(e, u, v, numRetransRequests))
  {
    hide HopLoss, Rate;
    LossRate(GetLinkRelia(e, u, v), GetLinkRelia(e, v, u), numRetransRequests);
  }

  lemma PhiRate(adj: Adjacency, nodeIds: seq<int>, hrsp: map<int, seq<RedundantSubPath>>, i: nat, numRetransRequests: nat)
    requires Route(adj, nodeIds) && Reliable(adj) && LossRates(hrsp) && 0 < i < |nodeIds|
    ensures Rate(PhiAt(adj, nodeIds, hrsp, i, numRetransRequests))
  {
    hide Pow, LossProduct, LinkLoss, Route, FindLink, Reliable, LossRates;
    RouteLink(adj, nodeIds, i);
    var e, u, v := LinkTo(adj, nodeIds, i), nodeIds[i - 1], nodeIds[i];
    LinkRates(adj, e, u, v);
    LinkLossRate(e, u, v, numRetransRequests);
    RspRates(hrsp, v);
    LossProductRate(RspsOf(hrsp, v));
    RateProduct(LossProduct(RspsOf(hrsp, v)), LinkLoss(e, u, v, numRetransRequests));
  }

  lemma LinkRates(adj: Adjacency, e: LltcLink, u: int, v: int)
    requires Reliable(adj) && 0 <= u < |adj| && e in adj[u] && Joins(e, u, v)
    ensures Rate(GetLinkRelia(e, u, v)) && Rate(GetLinkRelia(e, v, u))
  {
  }

  lemma RspRates(hrsp: map<int, seq<RedundantSubPath>>, v: int)
    requires LossRates(hrsp)
    ensures forall r :: r in RspsOf(hrsp, v) ==> Rate(r.dataDeliveryLossRate)
  {
  }

  /** With rates between 0 and 1, so is the end-to-end rate. */
  lemma {:induction false} PassesRate(adj: Adjacency, nodeIds: seq<int>, hrsp: map<int, seq<RedundantSubPath>>, i: nat, numRetransRequests: nat)
    requires Route(adj, nodeIds) && Reliable(adj) && LossRates(hrsp) && i < |nodeIds|
    ensures Rate(Passes(adj, nodeIds, hrsp, i, numRetransRequests))
  {
    hide PhiAt, Route;
    if i == 0 {
    } else {
      PassesRate(adj, nodeIds, hrsp, i - 1, numRetransRequests);
      PhiRate(adj, nodeIds, hrsp, i, numRetransRequests);
      RateProduct(Passes(adj, nodeIds, hrsp, i - 1, numRetransRequests), 1.0 - PhiAt(adj, nodeIds, hrsp, i, numRetransRequests));
    }
  }

  function WithRsp(hrsp: map<int, seq<RedundantSubPath>>, v: int, r: RedundantSubPath): map<int, seq<RedundantSubPath>> {
    hrsp[v := RspsOf(hrsp, v) + [r]]
  }

  lemma PhiFalls(adj: Adjacency, nodeIds: seq<int>, hrsp: map<int, seq<RedundantSubPath>>, w: int, r: RedundantSubPath, i: nat, numRetransRequests: nat)
    requires Route(adj, nodeIds) && Reliable(adj) && LossRates(hrsp) && Rate(r.dataDeliveryLossRate) && 0 < i < |nodeIds|
    ensures PhiAt(adj, nodeIds, WithRsp(hrsp, w, r), i, numRetransRequests) <= PhiAt(adj, nodeIds, hrsp, i, numRetransRequests)
  {
    hide LinkLoss, LossProduct, Phi, Rate, Route, FindLink, Reliable, LossRates;
    RouteLink(adj, nodeIds, i);
    var v, rsps := nodeIds[i], RspsOf(hrsp, nodeIds[i]);
    if v == w {
      PhiRate(adj, nodeIds, hrsp, i, numRetransRequests);
      assert RspsOf(WithRsp(hrsp, w, r), v) == rsps + [r];
      PhiShrinks(LinkTo(adj, nodeIds, i), nodeIds[i - 1], v, rsps, r, numRetransRequests);
    }
  }

  lemma PhiShrinks(e: LltcLink, u: int, v: int, rsps: seq<RedundantSubPath>, r: RedundantSubPath, numRetransRequests: nat)
    requires Rate(Phi(e, u, v, rsps, numRetransRequests)) && Rate(r.dataDeliveryLossRate)
    ensures Phi(e, u, v, rsps + [r], numRetransRequests) <= Phi(e, u, v, rsps, numRetransRequests)
  {
    hide LinkLoss, LossProduct;
    MoreLoss(rsps, r);
    Shrinks(LossProduct(rsps), r.dataDeliveryLossRate, LinkLoss(e, u, v, numRetransRequests));
  }

  lemma MoreLoss(rsps: seq<RedundantSubPath>, r: RedundantSubPath)
    ensures LossProduct(rsps + [r]) == LossProduct(rsps) * r.dataDeliveryLossRate
  {
    assert (rsps + [r])[..|rsps|] == rsps;
  }

  lemma Shrinks(a: real, b: real, c: real)
    requires Rate(a * c) && Rate(b)
    ensures (a * b) * c <= a * c
  {
    assert (a * b) * c == b * (a * c);
    RateProduct(a * c, b);
  }

  lemma MoreRates(hrsp: map<int, seq<RedundantSubPath>>, w: int, r: RedundantSubPath)
    requires LossRates(hrsp) && Rate(r.dataDeliveryLossRate)
    ensures LossRates(WithRsp(hrsp, w, r))
  {
  }

  /** One more sub-path at any node never lowers the chance to get through. */
  lemma {:induction false} RspNeverHurts(adj: Adjacency, nodeIds: seq<int>, hrsp: map<int, seq<RedundantSubPath>>, w: int, r: RedundantSubPath,
                                         i: nat, numRetransRequests: nat)
    requires Route(adj, nodeIds) && Reliable(adj) && LossRates(hrsp) && Rate(r.dataDeliveryLossRate) && i < |nodeIds|
    ensures Passes(adj, nodeIds, hrsp, i, numRetransRequests) <= Passes(adj, nodeIds, WithRsp(hrsp, w, r), i, numRetransRequests)
  {
    hide PhiAt, Route, WithRsp, LossRates;
    if i == 0 {
    } else {
      var hrsp' := WithRsp(hrsp, w, r);
      RspNeverHurts(adj, nodeIds, hrsp, w, r, i - 1, numRetransRequests);
      MoreRates(hrsp, w, r);
      PassesRate(adj, nodeIds, hrsp, i - 1, numRetransRequests);
      PhiFalls(adj, nodeIds, hrsp, w, r, i, numRetransRequests);
      PhiRate(adj, nodeIds, hrsp', i, numRetransRequests);
      Products(Passes(adj, nodeIds, hrsp, i - 1, numRetransRequests), Passes(adj, nodeIds, hrsp', i - 1, numRetransRequests),
               1.0 - PhiAt(adj, nodeIds, hrsp, i, numRetransRequests), 1.0 - PhiAt(adj, nodeIds, hrsp', i, numRetransRequests));
    }
  }

  lemma Products(a: real, b: real, c: real, d: real)
    requires 0.0 <= a <= b && c <= d && 0.0 <= d
    ensures a * c <= b * d
  {
    assert a * c <= a * d;
  }
}
