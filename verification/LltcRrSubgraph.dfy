/**
 * The subgraph a router keeps of a resilient route, and the preferred way to the destination that every
 * router computes from it.  A node is named by its place on the primary path.
 */
module LltcRrSubgraph {
  import opened FibonacciForest
  import opened ShortestPaths
  import opened SubgraphStatus
  import opened HeapSteps
  import Heap = LltcFibonacciHeap
  import RouteGeneration

  /** The logarithm of a success ratio: `-minus` in units of 1E-10, or minus infinity for the ratio 0. */
  datatype LogRatio = MinusInfinity | Log(minus: nat)

  datatype VirLink = VirLink(isOnPrimPath: bool, linkID: int, pathID: int, nodeIngress: int, nodeEgress: int, succRatioInLog: LogRatio)

  /** What a subgraph is made from: the paths, with the ratio of each link of the primary path and of each sub-path. */
  datatype Routes = Routes(primPath: PathCompact, hrsp: seq<seq<PathCompact>>, primRatios: seq<LogRatio>, rspRatios: seq<seq<LogRatio>>)

  /** The key of minus infinity is the smallest `long`. */
  const UNREACHED: int := 0x8000_0000_0000_0000
  const UINT_MAX: int := 0xFFFF_FFFF

  ghost predicate Fits(rt: Routes) {
    && Layout(rt.primPath, rt.hrsp) && |rt.primPath.nodeIds| <= INT_MAX
    && |rt.primRatios| == |rt.rspRatios| == |rt.hrsp| && forall i :: 0 <= i < |rt.hrsp| ==> |rt.rspRatios[i]| == |rt.hrsp[i]|
  }

  // ------------------------------------------------------------------- the virtual links

  /** The link of the primary path that ends at its i-th node. */
  function PrimLink(rt: Routes, i: int): VirLink
    requires 0 < i < |rt.primPath.nodeIds| == |rt.primRatios|
  {
    VirLink(true, GetLinkID(rt.primPath.nodeIds[i - 1], rt.primPath.nodeIds[i]), rt.primPath.pathID, rt.primPath.nodeIds[i - 1], rt.primPath.nodeIds[i],
            rt.primRatios[i])
  }

  /** A sub-path as one link, from the upstream node it leads to down to the node it was made for. */
  function RspLink(rsp: PathCompact, ratio: LogRatio): VirLink
    requires |rsp.nodeIds| >= 1
  {
    VirLink(false, 0, rsp.pathID, rsp.nodeIds[|rsp.nodeIds| - 1], rsp.nodeIds[0], ratio)
  }

  ghost predicate PrimAt(rt: Routes, u: int, l: VirLink, i: int)
    requires |rt.primRatios| == |rt.primPath.nodeIds|
  {
    u + 1 < i <= |rt.primRatios| && 0 <= u && l == PrimLink(rt, u + 1)
  }

  ghost predicate RspAt(rt: Routes, u: int, l: VirLink, j: int, k: int)
    requires Fits(rt)
  {
    IsRsp(rt.hrsp, j, k) && 0 <= u < j && rt.primPath.nodeIds[u] == l.nodeIngress
    && |rt.hrsp[j][k].nodeIds| >= 1 && l == RspLink(rt.hrsp[j][k], rt.rspRatios[j][k])
  }

  /** The links that leave each node: those of the primary path before the i-th node, and the sub-paths before (j, k). */
  ghost predicate EgressUpTo(rt: Routes, egress: seq<seq<VirLink>>, i: int, j: int, k: int)
    requires Fits(rt)
  {
    && |egress| == |rt.primPath.nodeIds|
    && forall u, l {:trigger l in egress[u]} :: 0 <= u < |egress| ==>
         (l in egress[u] <==> PrimAt(rt, u, l, i) || exists j', k' :: Before(j', k', j, k) && RspAt(rt, u, l, j', k'))
  }

  lemma FitsSizes(rt: Routes)
    requires Fits(rt)
    ensures |rt.primPath.nodeIds| == |rt.hrsp| == |rt.primRatios| == |rt.rspRatios| && 1 <= |rt.hrsp| <= INT_MAX
    ensures forall i :: 0 <= i < |rt.primPath.nodeIds| ==> 0 <= rt.primPath.nodeIds[i] < NODE_ID_LIMIT
    ensures NodeIdsFit(rt.primPath) && NoDup(rt.primPath.nodeIds)
  {
  }

  lemma RspSizes(rt: Routes, i: int, k: int)
    requires Fits(rt) && IsRsp(rt.hrsp, i, k)
    ensures |rt.rspRatios[i]| == |rt.hrsp[i]| && RspFits(rt.primPath, rt.hrsp[i][k], i) && |rt.hrsp[i][k].nodeIds| >= 1
  {
  }

  lemma EgressPrim(rt: Routes, egress: seq<seq<VirLink>>, i: int)
    requires Fits(rt) && EgressUpTo(rt, egress, i, 0, 0) && 0 < i < |rt.primPath.nodeIds|
    ensures EgressUpTo(rt, egress[i - 1 := egress[i - 1] + [PrimLink(rt, i)]], i + 1, 0, 0)
  {
  }

  lemma EgressRsp(rt: Routes, egress: seq<seq<VirLink>>, j: int, k: int, u: int)
    requires Fits(rt) && EgressUpTo(rt, egress, |egress|, j, k) && IsRsp(rt.hrsp, j, k) && 0 <= u < j
    requires |rt.hrsp[j][k].nodeIds| >= 1 && rt.primPath.nodeIds[u] == RspLink(rt.hrsp[j][k], rt.rspRatios[j][k]).nodeIngress
    ensures EgressUpTo(rt, egress[u := egress[u] + [RspLink(rt.hrsp[j][k], rt.rspRatios[j][k])]], |egress|, j, k + 1)
  {
    var l0 := RspLink(rt.hrsp[j][k], rt.rspRatios[j][k]);
    var egress' := egress[u := egress[u] + [l0]];
    assert RspAt(rt, u, l0, j, k) && Before(j, k, j, k + 1);
    forall v | v != u ensures !RspAt(rt, v, l0, j, k) {
      PlacesDiffer(rt, u, v);
    }
    hide Layout, GetLinkID, RspLink, PrimAt, Fits;
    forall v, l | 0 <= v < |egress'|
      ensures l in egress'[v] <==> PrimAt(rt, v, l, |egress|) || exists j', k' :: Before(j', k', j, k + 1) && RspAt(rt, v, l, j', k')
    {
      assert l in egress[v] <==> PrimAt(rt, v, l, |egress|) || exists j', k' :: Before(j', k', j, k) && RspAt(rt, v, l, j', k');
      if l in egress[v] && !PrimAt(rt, v, l, |egress|) {
        var j', k' :| Before(j', k', j, k) && RspAt(rt, v, l, j', k');
        assert Before(j', k', j, k + 1);
      }
      if j', k' :| Before(j', k', j, k + 1) && RspAt(rt, v, l, j', k') {
        if j' == j && k' == k {
          assert RspAt(rt, v, l, j, k);
        } else {
          assert Before(j', k', j, k);
        }
      }
    }
  }

  lemma PlacesDiffer(rt: Routes, u: int, v: int)
    requires Fits(rt)
    ensures 0 <= u < |rt.primPath.nodeIds| && 0 <= v < |rt.primPath.nodeIds| && u != v ==> rt.primPath.nodeIds[u] != rt.primPath.nodeIds[v]
  {
  }

  ghost predicate EgressOf(rt: Routes, egress: seq<seq<VirLink>>) {
    Fits(rt) && EgressUpTo(rt, egress, |egress|, |egress|, 0)
  }

  /** The node of the primary path with this id. */
  method PlaceOf(nodeIds: seq<int>, nodeId: int) returns (i: int)
    requires NoDup(nodeIds)
    ensures nodeId !in nodeIds ==> i == |nodeIds|
    ensures nodeId in nodeIds ==> 0 <= i < |nodeIds| && nodeIds[i] == nodeId && i == IndexOf(nodeIds, nodeId)
  {
    i := 0;
    while i < |nodeIds| && nodeIds[i] != nodeId
      invariant 0 <= i <= |nodeIds| && forall k :: 0 <= k < i ==> nodeIds[k] != nodeId
    {
      i := i + 1;
    }
  }

  // ----------------------------------------------------------------- the arcs of the search

  ghost function Place(rt: Routes, nodeId: int): int {
    if nodeId in rt.primPath.nodeIds then IndexOf(rt.primPath.nodeIds, nodeId) else -1
  }

  /** What the search stores to name a link. */
  function StoredID(l: VirLink): int {
    if l.isOnPrimPath then l.linkID else l.pathID
  }

  /** What is known of a link that leaves the u-th node. */
  ghost predicate LinkAt(rt: Routes, u: int, l: VirLink) {
    && 0 <= u < Place(rt, l.nodeEgress) < |rt.primPath.nodeIds|
    && (l.isOnPrimPath ==> l.pathID == rt.primPath.pathID && Place(rt, l.nodeEgress) == u + 1 && PRIM_PATH_LINK_ID_MARK <= l.linkID < LINK_ID_NULL)
    && (l.isOnPrimPath ==> l.linkID == GetLinkID(rt.primPath.nodeIds[u], rt.primPath.nodeIds[u + 1]))
    && (!l.isOnPrimPath ==> l.linkID == 0 && 1 <= l.pathID < NODE_ID_LIMIT && l.pathID != rt.primPath.pathID)
  }

  lemma LinkLeads(rt: Routes, egress: seq<seq<VirLink>>, u: int, l: VirLink)
    requires EgressOf(rt, egress) && 0 <= u < |egress| && l in egress[u]
    ensures |egress| == |rt.primPath.nodeIds| && LinkAt(rt, u, l)
  {
  }

  ghost predicate FailedHop(rt: Routes, m: map<int, LinkStatus>, i: int) {
    0 < i < |rt.primPath.nodeIds| && StatusOf(m, GetLinkID(rt.primPath.nodeIds[i - 1], rt.primPath.nodeIds[i])) == Failure
  }

  /** The number of failed links of the primary path up to its i-th node, by which unbroken segments are told apart. */
  ghost function Component(rt: Routes, m: map<int, LinkStatus>, i: nat): nat {
    if i == 0 then 0 else Component(rt, m, i - 1) + if FailedHop(rt, m, i) then 1 else 0
  }

  /** A link the search may take: not failed, of a success ratio above 0, and no sub-path within one unbroken segment. */
  ghost predicate Usable(rt: Routes, m: map<int, LinkStatus>, u: int, l: VirLink) {
    && 0 <= u && 0 <= Place(rt, l.nodeEgress) && l.succRatioInLog.Log? && StatusOf(m, l.linkID) != Failure
    && (l.isOnPrimPath || Component(rt, m, Place(rt, l.nodeEgress)) != Component(rt, m, u))
  }

  ghost function ArcFor(rt: Routes, u: int, l: VirLink): Arc {
    Arc(u, Place(rt, l.nodeEgress), if l.succRatioInLog.Log? then l.succRatioInLog.minus else 0, StoredID(l))
  }

  ghost function ArcsOf(rt: Routes, egress: seq<seq<VirLink>>, m: map<int, LinkStatus>): set<Arc> {
    set u, l | 0 <= u < |egress| && l in egress[u] && Usable(rt, m, u, l) :: ArcFor(rt, u, l)
  }

  lemma ArcUsable(rt: Routes, egress: seq<seq<VirLink>>, m: map<int, LinkStatus>, u: int, l: VirLink)
    requires EgressOf(rt, egress) && 0 <= u < |egress| && l in egress[u]
    ensures ArcFor(rt, u, l) in ArcsOf(rt, egress, m) <==> Usable(rt, m, u, l)
  {
  }

  ghost predicate Forward(arcs: set<Arc>, n: int) {
    forall a :: a in arcs ==> 0 <= a.from < a.to < n && a.cost >= 0
  }

  lemma ArcsForward(rt: Routes, egress: seq<seq<VirLink>>, m: map<int, LinkStatus>)
    requires EgressOf(rt, egress)
    ensures Forward(ArcsOf(rt, egress, m), |egress|)
  {
    hide EgressOf, Usable, Place, StoredID, GetLinkID;
    forall a | a in ArcsOf(rt, egress, m) ensures 0 <= a.from < a.to < |egress| && a.cost >= 0 {
      var u, l :| 0 <= u < |egress| && l in egress[u] && Usable(rt, m, u, l) && ArcFor(rt, u, l) == a;
      LinkLeads(rt, egress, u, l);
    }
  }

  /** Sums of logarithms fit a `long`. */
  ghost predicate SumsFit(arcs: set<Arc>) {
    forall p, t :: IsWalk(arcs, 0, p, t) && Simple(0, p) ==> Cost(p) < UNREACHED
  }

  /** They do if no ratio is so small that the sum over a whole path would not. */
  lemma SumsFitWhen(arcs: set<Arc>, n: int, most: nat)
    requires n >= 1 && Forward(arcs, n) && most * (n - 1) < UNREACHED && forall a :: a in arcs ==> a.cost <= most
    ensures SumsFit(arcs)
  {
    hide IsWalk, Simple, Cost;
    forall p, t | IsWalk(arcs, 0, p, t) && Simple(0, p) ensures Cost(p) < UNREACHED {
      CostBounded(arcs, 0, p, t, most);
      SimpleShort(arcs, 0, p, t, n);
      assert most * |p| <= most * (n - 1);
    }
  }

  // ------------------------------------------------------------------------- the search

  /** The node before, by its place, or -1; and the id of the link from it. */
  datatype PrevNodeInfo = PrevNodeInfo(node: int, virLinkID: int)

  ghost function InfoOf(p: seq<Arc>): PrevNodeInfo {
    if p == [] then PrevNodeInfo(-1, 0) else PrevNodeInfo(p[|p| - 1].from, p[|p| - 1].id)
  }

  ghost predicate Labels(keys: seq<int>, info: seq<PrevNodeInfo>, paths: map<int, seq<Arc>>) {
    && |keys| == |info|
    && (forall v :: v in paths ==> 0 <= v < |keys| && keys[v] == Cost(paths[v]) < UNREACHED && info[v] == InfoOf(paths[v]))
    && (forall v :: 0 <= v < |keys| && v !in paths ==> keys[v] == UNREACHED && info[v] == InfoOf([]))
  }

  ghost predicate Searching(arcs: set<Arc>, n: int, keys: seq<int>, info: seq<PrevNodeInfo>, inFH: seq<bool>, objects: set<int>,
                            paths: map<int, seq<Arc>>, done: set<int>, pending: set<Arc>)
  {
    && |keys| == |inFH| == n >= 1 && SumsFit(arcs) && Search(arcs, 0, paths, done, pending) && Labels(keys, info, paths) && Forward(arcs, n)
    && (forall v :: 0 <= v < n ==> (inFH[v] <==> v in objects) && (v in objects <==> v !in done))
    && (forall v :: v in objects || v in done ==> 0 <= v < n)
  }

  lemma SearchingStart(arcs: set<Arc>, n: int)
    requires n >= 1 && SumsFit(arcs) && Forward(arcs, n)
    ensures Searching(arcs, n, seq(n, _ => UNREACHED)[0 := 0], seq(n, _ => PrevNodeInfo(-1, 0)), seq(n, _ => true), RouteGeneration.Below(n), map[0 := []], {}, {})
  {
    hide SumsFit, Search, Labels;
    SearchStart(arcs, 0);
    LabelsStart(n);
  }

  lemma LabelsStart(n: int)
    requires n >= 1
    ensures Labels(seq(n, _ => UNREACHED)[0 := 0], seq(n, _ => PrevNodeInfo(-1, 0)), map[0 := []])
  {
  }

  lemma SearchingPop(arcs: set<Arc>, n: int, keys: seq<int>, info: seq<PrevNodeInfo>, inFH: seq<bool>, objects: set<int>,
                     paths: map<int, seq<Arc>>, done: set<int>, u: int, pending: set<Arc>)
    requires Searching(arcs, n, keys, info, inFH, objects + {u}, paths, done, {}) && u !in objects && |keys| == n
    requires forall x :: x in objects + {u} ==> 0 <= x < n && 0 <= u < n && keys[u] <= keys[x]
    requires forall a :: a in arcs && a.from == u ==> a in pending
    ensures 0 <= u < n == |inFH|
    ensures Searching(arcs, n, keys, info, inFH[u := false], objects, paths, done + {u}, pending) && Popped(paths, done + {u}, u)
  {
    hide SumsFit, Walks, Tree, Relaxed, Forward, InfoOf, Cost, Monotone;
    assert u in objects + {u};
    if u in paths {
      forall v | v in paths && v !in done ensures Cost(paths[u]) <= Cost(paths[v]) {
        assert v in objects + {u};
      }
      SearchPop(arcs, 0, paths, done, u, pending);
    } else {
      assert keys[u] == UNREACHED;
      forall v | v in paths ensures v in done {
        assert keys[v] < UNREACHED;
        assert v !in done ==> v in objects + {u};
      }
      SearchPopUnreached(arcs, 0, paths, done, u);
      MorePending(arcs, 0, paths, done + {u}, {}, pending);
    }
  }

  /** A link that leads to a node no longer in the heap, or may not be used. */
  lemma SearchingSkip(arcs: set<Arc>, n: int, keys: seq<int>, info: seq<PrevNodeInfo>, inFH: seq<bool>, objects: set<int>,
                      paths: map<int, seq<Arc>>, done: set<int>, pending: set<Arc>, pending': set<Arc>, a: Arc)
    requires Searching(arcs, n, keys, info, inFH, objects, paths, done, pending) && Popped(paths, done, a.from)
    requires a !in arcs || a.to in done || a.from !in paths
    requires forall b :: b in pending && b != a ==> b in pending'
    ensures Searching(arcs, n, keys, info, inFH, objects, paths, done, pending')
  {
    hide SumsFit, Search, Labels, Forward, Popped;
    if a in arcs {
      SkipArc(arcs, 0, paths, done, pending, a);
      MorePending(arcs, 0, paths, done, pending - {a}, pending');
    } else {
      MorePending(arcs, 0, paths, done, pending, pending');
    }
  }

  lemma ReachedFacts(arcs: set<Arc>, n: int, keys: seq<int>, info: seq<PrevNodeInfo>, paths: map<int, seq<Arc>>, done: set<int>, pending: set<Arc>, a: Arc)
    requires Search(arcs, 0, paths, done, pending) && Labels(keys, info, paths) && SumsFit(arcs) && Forward(arcs, n) && Popped(paths, done, a.from)
    requires a in arcs && a.from in paths && a.to !in done && 0 <= a.to < |keys|
    ensures a.from in done && Farthest(paths, done, a.from) && a.to != 0 && 0 <= a.from < |keys| && keys[a.from] == Cost(paths[a.from]) < UNREACHED
    ensures 0 <= Cost(paths[a.from]) + a.cost == Cost(paths[a.from] + [a]) < UNREACHED
    ensures if a.to in paths then keys[a.to] == Cost(paths[a.to]) else keys[a.to] == UNREACHED
  {
    hide Tree, Relaxed, Monotone, NodesOf, Simple, IsWalk, Cost, InfoOf;
    assert IsWalk(arcs, 0, paths[a.from], a.from);
    CostNatural(arcs, 0, paths[a.from], a.from);
    SimpleStep(arcs, 0, paths, done, a);
  }

  lemma ImproveLabels(keys: seq<int>, info: seq<PrevNodeInfo>, paths: map<int, seq<Arc>>, a: Arc)
    requires Labels(keys, info, paths) && a.from in paths && 0 <= a.to < |keys| && Cost(paths[a.from] + [a]) == Cost(paths[a.from]) + a.cost < UNREACHED
    ensures |keys| == |info| &&
            Labels(keys[a.to := Cost(paths[a.from]) + a.cost], info[a.to := PrevNodeInfo(a.from, a.id)], paths[a.to := paths[a.from] + [a]])
  {
  }

  lemma SearchingRelax(arcs: set<Arc>, n: int, keys: seq<int>, info: seq<PrevNodeInfo>, inFH: seq<bool>, objects: set<int>,
                       paths: map<int, seq<Arc>>, done: set<int>, pending: set<Arc>, pending': set<Arc>, a: Arc)
    requires Searching(arcs, n, keys, info, inFH, objects, paths, done, pending) && Popped(paths, done, a.from)
    requires a in arcs && a.from in paths && 0 <= a.to < |inFH| && inFH[a.to]
    requires forall b :: b in pending && b != a ==> b in pending'
    ensures |keys| == |info| == n && 0 <= a.from < n && a.to in objects && keys[a.from] < UNREACHED
    ensures var alt, paths' := keys[a.from] + a.cost, paths[a.to := paths[a.from] + [a]];
            if alt < keys[a.to] then
              Searching(arcs, n, keys[a.to := alt], info[a.to := PrevNodeInfo(a.from, a.id)], inFH, objects, paths', done, pending')
              && Popped(paths', done, a.from)
            else Searching(arcs, n, keys, info, inFH, objects, paths, done, pending')
  {
    hide SumsFit, Search, Labels, Forward, Popped, Farthest, Cost;
    LabelSizes(keys, info, paths);
    ReachedFacts(arcs, n, keys, info, paths, done, pending, a);
    if keys[a.from] + a.cost < keys[a.to] {
      var paths' := paths[a.to := paths[a.from] + [a]];
      SearchImprove(arcs, 0, paths, done, pending, a);
      ImproveLabels(keys, info, paths, a);
      MorePending(arcs, 0, paths', done, pending - {a}, pending');
      StillPopped(paths', done, a.from);
    } else {
      SearchKeep(arcs, 0, paths, done, pending, a);
      MorePending(arcs, 0, paths, done, pending - {a}, pending');
    }
  }

  lemma LabelSizes(keys: seq<int>, info: seq<PrevNodeInfo>, paths: map<int, seq<Arc>>)
    requires Labels(keys, info, paths)
    ensures |keys| == |info| && forall v :: 0 <= v < |keys| ==> (v in paths <==> keys[v] != UNREACHED)
  {
  }

  lemma StillPopped(paths: map<int, seq<Arc>>, done: set<int>, u: int)
    requires u in done && Farthest(paths, done, u)
    ensures Popped(paths, done, u)
  {
  }

  // ------------------------------------------------------------------ the search as a function

  /** The arcs that may be taken out of a node, in the order of its links from the i-th on. */
  ghost function ArcRow(rt: Routes, arcs: set<Arc>, links: seq<VirLink>, u: int, i: nat): seq<Arc>
    decreases |links| - i
  {
    if i >= |links| then []
    else
      var r := ArcRow(rt, arcs, links, u, i + 1);
      if ArcFor(rt, u, links[i]) in arcs then [ArcFor(rt, u, links[i])] + r else r
  }

  ghost function ArcRows(rt: Routes, arcs: set<Arc>, egress: seq<seq<VirLink>>): seq<seq<Arc>> {
    seq(|egress|, u requires 0 <= u < |egress| => ArcRow(rt, arcs, egress[u], u, 0))
  }

  datatype Progress = Progress(keys: seq<int>, info: seq<PrevNodeInfo>, inFH: seq<bool>, heap: HeapSteps.Heap)

  ghost function Tried(s: Progress, a: Arc): Progress {
    var alt := At(s.keys, a.from) + a.cost;
    if !(0 <= a.to < |s.inFH| && s.inFH[a.to]) || At(s.keys, a.from) == UNREACHED || alt >= At(s.keys, a.to) then s
    else
      var keys := Put(s.keys, a.to, alt);
      Progress(keys, Put(s.info, a.to, PrevNodeInfo(a.from, a.id)), s.inFH, WithRaised(s.heap, keys, a.to))
  }

  ghost function TriedAll(s: Progress, row: seq<Arc>): Progress
    decreases row
  {
    if row == [] then s else TriedAll(Tried(s, row[0]), row[1..])
  }

  /** Takes `n` nodes out of the heap, one after the other, and tries the arcs out of each. */
  ghost function Searched(s: Progress, rows: seq<seq<Arc>>, n: nat): Progress
    decreases n
  {
    if n == 0 then s
    else
      var u := s.heap.maxNode;
      var popped := Progress(s.keys, s.info, Put(s.inFH, u, false), WithoutMax(s.heap, s.keys));
      Searched(TriedAll(popped, if 0 <= u < |rows| then rows[u] else []), rows, n - 1)
  }

  ghost function FirstKeys(n: nat): seq<int> {
    Put(seq(n, _ => UNREACHED), 0, 0)
  }

  ghost function Begun(n: nat): Progress {
    Progress(FirstKeys(n), seq(n, _ => PrevNodeInfo(-1, 0)), seq(n, _ => true), Filled(FirstKeys(n), n))
  }

  /** The table that the search leaves, which depends on the arcs and the order of the links alone. */
  ghost function TreeTable(rt: Routes, arcs: set<Arc>, egress: seq<seq<VirLink>>): seq<PrevNodeInfo> {
    Searched(Begun(|egress|), ArcRows(rt, arcs, egress), |egress|).info
  }

  /** With `n` nodes left in the heap, the search is on its way to that table. */
  ghost predicate OnTheWay(rt: Routes, arcs: set<Arc>, egress: seq<seq<VirLink>>, s: Progress, n: nat) {
    Searched(s, ArcRows(rt, arcs, egress), n).info == TreeTable(rt, arcs, egress)
  }

  lemma SearchedBegins(rt: Routes, arcs: set<Arc>, egress: seq<seq<VirLink>>, keys: seq<int>, h: HeapSteps.Heap)
    requires |egress| >= 1 && keys == seq(|egress|, _ => UNREACHED)[0 := 0] && h == Filled(keys, |egress|)
    ensures var s := Progress(keys, seq(|egress|, _ => PrevNodeInfo(-1, 0)), seq(|egress|, _ => true), h);
            OnTheWay(rt, arcs, egress, s, |egress|)
  {
    var s := Progress(keys, seq(|egress|, _ => PrevNodeInfo(-1, 0)), seq(|egress|, _ => true), h);
    assert keys == FirstKeys(|egress|);
    assert s == Begun(|egress|);
  }

  lemma SearchedNext(rt: Routes, arcs: set<Arc>, egress: seq<seq<VirLink>>, s: Progress, u: int, popped: Progress, s': Progress, n: nat)
    requires OnTheWay(rt, arcs, egress, s, n) && n > 0 && 0 <= u < |egress| == |s.inFH| && u == s.heap.maxNode
    requires popped == Progress(s.keys, s.info, s.inFH[u := false], WithoutMax(s.heap, s.keys))
    requires s' == TriedAll(popped, ArcRow(rt, arcs, egress[u], u, 0))
    ensures OnTheWay(rt, arcs, egress, s', n - 1)
  {
    hide WithoutMax, TriedAll, ArcRow, TreeTable;
  }

  lemma SearchedEnd(rt: Routes, arcs: set<Arc>, egress: seq<seq<VirLink>>, s: Progress)
    requires OnTheWay(rt, arcs, egress, s, 0)
    ensures s.info == TreeTable(rt, arcs, egress)
  {
    hide TreeTable;
  }

  /** One link of a row is looked at: an arc that may not be taken is passed over. */
  lemma RowStep(rt: Routes, arcs: set<Arc>, links: seq<VirLink>, u: int, i: nat, s: Progress)
    requires i < |links|
    ensures var a := ArcFor(rt, u, links[i]);
            TriedAll(s, ArcRow(rt, arcs, links, u, i)) == TriedAll(if a in arcs then Tried(s, a) else s, ArcRow(rt, arcs, links, u, i + 1))
  {
    hide Tried, ArcFor;
    var a, r := ArcFor(rt, u, links[i]), ArcRow(rt, arcs, links, u, i + 1);
    assert ([a] + r)[1..] == r;
  }

  lemma RowEnd(rt: Routes, arcs: set<Arc>, links: seq<VirLink>, u: int, s: Progress)
    ensures TriedAll(s, ArcRow(rt, arcs, links, u, |links|)) == s
  {
  }

  lemma TriedSkip(s: Progress, a: Arc)
    requires 0 <= a.to < |s.inFH| && 0 <= a.from < |s.keys| && (!s.inFH[a.to] || s.keys[a.from] == UNREACHED)
    ensures Tried(s, a) == s
  {
  }

  lemma TriedIs(s: Progress, a: Arc)
    requires 0 <= a.to < |s.inFH| == |s.keys| == |s.info| && 0 <= a.from < |s.keys| && s.inFH[a.to] && s.keys[a.from] != UNREACHED
    ensures var alt := s.keys[a.from] + a.cost;
            Tried(s, a) == if alt < s.keys[a.to]
                           then Progress(s.keys[a.to := alt], s.info[a.to := PrevNodeInfo(a.from, a.id)], s.inFH, WithRaised(s.heap, s.keys[a.to := alt], a.to))
                           else s
  {
    hide WithRaised;
  }

  /** The result of a finished search: a best way to every node that has one. */
  ghost predicate TreeOf(arcs: set<Arc>, info: seq<PrevNodeInfo>, paths: map<int, seq<Arc>>) {
    && |info| >= 1 && Forward(arcs, |info|)
    && (forall t :: t in paths ==> 0 <= t < |info| && Shortest(arcs, 0, paths[t], t) && info[t] == InfoOf(paths[t]))
    && (forall t :: Reachable(arcs, 0, t) ==> t in paths)
    && (forall t :: t in paths && paths[t] != [] ==>
         var a := paths[t][|paths[t]| - 1]; a.to == t && a.from in paths && paths[t] == paths[a.from] + [a])
    && (forall t :: 0 <= t < |info| && t !in paths ==> info[t] == InfoOf([]))
  }

  lemma TreeFound(arcs: set<Arc>, n: int, keys: seq<int>, info: seq<PrevNodeInfo>, inFH: seq<bool>, objects: set<int>,
                  paths: map<int, seq<Arc>>, done: set<int>)
    requires Searching(arcs, n, keys, info, inFH, objects, paths, done, {}) && objects == {}
    ensures |info| == n && TreeOf(arcs, info, paths)
  {
    hide Cost, IsWalk, NodesOf, Simple, Relaxed, Monotone, InfoOf, SumsFit;
    assert forall v :: 0 <= v < n ==> v in done;
    forall q, t | IsWalk(arcs, 0, q, t) ensures t in paths && Cost(paths[t]) <= Cost(q) {
      SearchShortest(arcs, 0, paths, done, q, t);
    }
    forall t | t in paths && paths[t] != []
      ensures var a := paths[t][|paths[t]| - 1]; a.to == t && a.from in paths && paths[t] == paths[a.from] + [a]
    {
      assert TreeAt(0, paths, done, t);
    }
  }

  method PreferredTree(rt: Routes, egress: seq<seq<VirLink>>, m: map<int, LinkStatus>) returns (info: seq<PrevNodeInfo>, ghost paths: map<int, seq<Arc>>)
    requires EgressOf(rt, egress) && SumsFit(ArcsOf(rt, egress, m))
    ensures |info| == |egress| && TreeOf(ArcsOf(rt, egress, m), info, paths)
    ensures info == TreeTable(rt, ArcsOf(rt, egress, m), egress)
  {
    hide *;
    EgressSizes(rt, egress);
    ArcsForward(rt, egress, m);
    var nodesToComponentIDs := ComponentIDs(rt, m);
    var n := |rt.primPath.nodeIds|;
    ghost var arcs := ArcsOf(rt, egress, m);
    SearchingStart(arcs, n);
    info := seq(n, _ => PrevNodeInfo(-1, 0));
    var inFH := seq(n, _ => true);
    var keys := new int[n](_ => UNREACHED);
    keys[0] := 0;
    var fh := RouteGeneration.FillQueue(n, keys);
    assert keys[..] == seq(n, _ => UNREACHED)[0 := 0];
    SearchedBegins(rt, arcs, egress, keys[..], fh.State());
    paths := map[0 := []];
    ghost var done: set<int> := {};
    var size := fh.Size();
    while size > 0
      invariant fresh(fh) && fresh(keys) && fh.keys == keys && keys.Length == n && |info| == n
      invariant fh.Valid() && size == |fh.objects|
      invariant Searching(arcs, n, keys[..], info, inFH, fh.objects, paths, done, {})
      invariant OnTheWay(rt, arcs, egress, Progress(keys[..], info, inFH, fh.State()), size)
      decreases |fh.objects|
    {
      ghost var s := Progress(keys[..], info, inFH, fh.State());
      ghost var before := fh.objects;
      var u := fh.RemoveMax();
      assert fh.objects + {u} == before && |fh.objects| == size - 1 by { OneLess(before, fh.objects, u); }
      InRange(arcs, n, keys[..], info, inFH, before, paths, done, u);
      ArcsFromAll(rt, egress, m, u);
      SearchingPop(arcs, n, keys[..], info, inFH, fh.objects, paths, done, u, ArcsFrom(rt, egress[u], u, 0));
      inFH := inFH[u := false];
      done := done + {u};
      ghost var popped := Progress(keys[..], info, inFH, fh.State());
      info, paths := RelaxLinks(rt, egress, m, nodesToComponentIDs, u, fh, keys, info, inFH, paths, done);
      ghost var s' := Progress(keys[..], info, inFH, fh.State());
      SearchedNext(rt, arcs, egress, s, u, popped, s', size);
      ghost var left := size - 1;
      size := fh.Size();
      assert size == left && OnTheWay(rt, arcs, egress, s', left);
    }
    TreeFound(arcs, n, keys[..], info, inFH, fh.objects, paths, done);
    SearchedEnd(rt, arcs, egress, Progress(keys[..], info, inFH, fh.State()));
  }

  lemma OneLess(before: set<int>, objects: set<int>, u: int)
    requires u in before && objects == before - {u}
    ensures objects + {u} == before && |objects| == |before| - 1
  {
  }

  lemma InRange(arcs: set<Arc>, n: int, keys: seq<int>, info: seq<PrevNodeInfo>, inFH: seq<bool>, objects: set<int>,
                paths: map<int, seq<Arc>>, done: set<int>, u: int)
    requires Searching(arcs, n, keys, info, inFH, objects, paths, done, {}) && u in objects
    ensures 0 <= u < n == |inFH|
  {
  }

  lemma EgressSizes(rt: Routes, egress: seq<seq<VirLink>>)
    requires EgressOf(rt, egress)
    ensures 1 <= |egress| == |rt.primPath.nodeIds| <= INT_MAX && NoDup(rt.primPath.nodeIds) && Fits(rt)
  {
  }

  method ComponentIDs(rt: Routes, m: map<int, LinkStatus>) returns (componentIDs: seq<int>)
    requires |rt.primPath.nodeIds| >= 1
    ensures |componentIDs| == |rt.primPath.nodeIds| && forall i :: 0 <= i < |componentIDs| ==> componentIDs[i] == Component(rt, m, i)
  {
    hide GetLinkID, StatusOf;
    var componentID := 0;
    componentIDs := [0];
    for i := 1 to |rt.primPath.nodeIds|
      invariant |componentIDs| == i && componentID == Component(rt, m, i - 1)
      invariant forall j :: 0 <= j < i ==> componentIDs[j] == Component(rt, m, j)
    {
      var linkID := GetLinkID(rt.primPath.nodeIds[i - 1], rt.primPath.nodeIds[i]);
      if StatusOf(m, linkID) == Failure {
        componentID := componentID + 1;
      }
      componentIDs := componentIDs + [componentID];
    }
  }

  ghost function ArcsFrom(rt: Routes, links: seq<VirLink>, u: int, i: nat): set<Arc> {
    set j | i <= j < |links| :: ArcFor(rt, u, links[j])
  }

  lemma ArcsFromAll(rt: Routes, egress: seq<seq<VirLink>>, m: map<int, LinkStatus>, u: int)
    requires 0 <= u < |egress|
    ensures forall a :: a in ArcsOf(rt, egress, m) && a.from == u ==> a in ArcsFrom(rt, egress[u], u, 0)
  {
  }

  lemma ArcsFromNext(rt: Routes, links: seq<VirLink>, u: int, i: nat)
    requires i < |links|
    ensures forall a :: a in ArcsFrom(rt, links, u, i) && a != ArcFor(rt, u, links[i]) ==> a in ArcsFrom(rt, links, u, i + 1)
  {
  }

  lemma NoArcsLeft(rt: Routes, links: seq<VirLink>, u: int)
    ensures ArcsFrom(rt, links, u, |links|) == {}
  {
  }

  /** What the loop over the links of a node needs of one of them. */
  lemma LinkFacts(rt: Routes, egress: seq<seq<VirLink>>, m: map<int, LinkStatus>, u: int, l: VirLink)
    requires EgressOf(rt, egress) && 0 <= u < |egress| && l in egress[u]
    ensures l.nodeEgress in rt.primPath.nodeIds && 0 <= IndexOf(rt.primPath.nodeIds, l.nodeEgress) < |egress| == |rt.primPath.nodeIds|
    ensures var v := IndexOf(rt.primPath.nodeIds, l.nodeEgress); var a := ArcFor(rt, u, l);
            && a.from == u && a.to == v && a.id == (if l.isOnPrimPath then l.linkID else l.pathID)
            && (l.succRatioInLog.Log? ==> a.cost == l.succRatioInLog.minus)
            && (a in ArcsOf(rt, egress, m) <==>
                  l.succRatioInLog.Log? && StatusOf(m, l.linkID) != Failure && (l.isOnPrimPath || Component(rt, m, v) != Component(rt, m, u)))
  {
    LinkLeads(rt, egress, u, l);
    ArcUsable(rt, egress, m, u, l);
    hide EgressOf;
  }

  /** The inner loop: examines every link that leaves the node popped last. */
  method RelaxLinks(rt: Routes, egress: seq<seq<VirLink>>, m: map<int, LinkStatus>, nodesToComponentIDs: seq<int>, u: int,
                    fh: Heap.FibonacciHeap, keys: array<int>, info: seq<PrevNodeInfo>, inFH: seq<bool>,
                    ghost paths: map<int, seq<Arc>>, ghost done: set<int>)
    returns (info': seq<PrevNodeInfo>, ghost paths': map<int, seq<Arc>>)
    requires EgressOf(rt, egress) && 0 <= u < |egress| == |nodesToComponentIDs| == keys.Length == |info| == |inFH| == |rt.primPath.nodeIds|
    requires NoDup(rt.primPath.nodeIds) && forall i :: 0 <= i < |nodesToComponentIDs| ==> nodesToComponentIDs[i] == Component(rt, m, i)
    requires fh.keys == keys && fh.Valid() && Popped(paths, done, u)
    requires Searching(ArcsOf(rt, egress, m), |egress|, keys[..], info, inFH, fh.objects, paths, done, ArcsFrom(rt, egress[u], u, 0))
    modifies fh, keys
    ensures fh.Valid() && fh.objects == old(fh.objects) && |info'| == |info|
    ensures Searching(ArcsOf(rt, egress, m), |egress|, keys[..], info', inFH, fh.objects, paths', done, {})
    ensures Progress(keys[..], info', inFH, fh.State()) ==
            TriedAll(Progress(old(keys[..]), info, inFH, old(fh.State())), ArcRow(rt, ArcsOf(rt, egress, m), egress[u], u, 0))
  {
    hide *;
    ghost var arcs, n, links := ArcsOf(rt, egress, m), |egress|, egress[u];
    info', paths' := info, paths;
    ghost var all := TriedAll(Progress(keys[..], info, inFH, fh.State()), ArcRow(rt, arcs, links, u, 0));
    var i := 0;
    while i < |egress[u]|
      invariant 0 <= i <= |links| && fh.Valid() && fh.objects == old(fh.objects) && Popped(paths', done, u) && |info'| == |info|
      invariant Searching(arcs, n, keys[..], info', inFH, fh.objects, paths', done, ArcsFrom(rt, links, u, i))
      invariant TriedAll(Progress(keys[..], info', inFH, fh.State()), ArcRow(rt, arcs, links, u, i)) == all
    {
      ghost var s := Progress(keys[..], info', inFH, fh.State());
      RowStep(rt, arcs, links, u, i, s);
      var l := egress[u][i];
      ghost var a, pending, pending' := ArcFor(rt, u, l), ArcsFrom(rt, links, u, i), ArcsFrom(rt, links, u, i + 1);
      ArcsFromNext(rt, links, u, i);
      LinkFacts(rt, egress, m, u, l);
      var v := PlaceOf(rt.primPath.nodeIds, l.nodeEgress);
      SearchSizes(arcs, n, keys[..], info', inFH, fh.objects, paths', done, pending);
      if !inFH[v] {
        TriedSkip(s, a);
        SearchingSkip(arcs, n, keys[..], info', inFH, fh.objects, paths', done, pending, pending', a);
      } else if StatusOf(m, l.linkID) == Failure {
        SearchingSkip(arcs, n, keys[..], info', inFH, fh.objects, paths', done, pending, pending', a);
      } else if nodesToComponentIDs[v] == nodesToComponentIDs[u] && !l.isOnPrimPath {
        SearchingSkip(arcs, n, keys[..], info', inFH, fh.objects, paths', done, pending, pending', a);
      } else if keys[u] == UNREACHED || l.succRatioInLog.MinusInfinity? {
        // The sum is minus infinity, which is greater than nothing.
        if keys[u] == UNREACHED { TriedSkip(s, a); }
        SearchingSkip(arcs, n, keys[..], info', inFH, fh.objects, paths', done, pending, pending', a);
      } else {
        ghost var before := keys[..];
        var alt := keys[u] + l.succRatioInLog.minus;
        TriedIs(s, a);
        SearchingRelax(arcs, n, before, info', inFH, fh.objects, paths', done, pending, pending', a);
        if alt < keys[v] {
          fh.ValidKeys(HeapSteps.NIL);
          keys[v] := alt;
          assert keys[..] == before[v := alt];
          info' := info'[v := PrevNodeInfo(u, if l.isOnPrimPath then l.linkID else l.pathID)];
          fh.Raised(before, v, alt);
          fh.ValidKeys(v);
          fh.UpdateKey(v);
          paths' := paths'[v := paths'[u] + [a]];
        }
      }
      i := i + 1;
    }
    NoArcsLeft(rt, links, u);
    RowEnd(rt, arcs, links, u, Progress(keys[..], info', inFH, fh.State()));
  }

  lemma SearchSizes(arcs: set<Arc>, n: int, keys: seq<int>, info: seq<PrevNodeInfo>, inFH: seq<bool>, objects: set<int>,
                    paths: map<int, seq<Arc>>, done: set<int>, pending: set<Arc>)
    requires Searching(arcs, n, keys, info, inFH, objects, paths, done, pending)
    ensures |keys| == |info| == |inFH| == n && forall v :: 0 <= v < n ==> (v in paths <==> keys[v] != UNREACHED) && (inFH[v] <==> v !in done)
  {
  }

  // ---------------------------------------------------------------------- hop by hop

  datatype PreferredLink = PreferredLink(downLinkID: int, upLinkID: int)

  /** The id a router uses for a link: the path id, that of the primary path for all links marked as being on it. */
  function PublishedID(primPathID: int, virLinkID: int): int {
    if virLinkID >= PRIM_PATH_LINK_ID_MARK then primPathID else virLinkID
  }

  /** The links before and after a node on a way to the destination. */
  ghost function LinksAt(p: seq<Arc>, local: int, primPathID: int): PreferredLink {
    if p == [] then PreferredLink(UINT_MAX, UINT_MAX)
    else
      var a, q := p[|p| - 1], p[..|p| - 1];
      if a.from == local then
        PreferredLink(PublishedID(primPathID, a.id), if q == [] then UINT_MAX else PublishedID(primPathID, q[|q| - 1].id))
      else LinksAt(q, local, primPathID)
  }

  ghost function LinksToward(paths: map<int, seq<Arc>>, dst: int, local: int, primPathID: int): PreferredLink {
    LinksAt(if dst in paths then paths[dst] else [], local, primPathID)
  }

  lemma TreeInfo(arcs: set<Arc>, info: seq<PrevNodeInfo>, paths: map<int, seq<Arc>>, v: int)
    requires TreeOf(arcs, info, paths) && 0 <= v < |info|
    ensures info[v].node == -1 <==> v !in paths || paths[v] == []
    ensures info[v].node != -1 ==> && 0 <= info[v].node < v && info[v].node in paths && info[v] == InfoOf(paths[v])
                                   && paths[v] != [] && paths[v][..|paths[v]| - 1] == paths[info[v].node]
  {
    hide Cost;
    if v in paths && paths[v] != [] {
      assert Shortest(arcs, 0, paths[v], v);
      var a := paths[v][|paths[v]| - 1];
      assert a in arcs;
    }
  }

  /** Walks back from the destination to the link that leaves the local node. */
  method LocalLinks(rrNodeInfo: seq<PrevNodeInfo>, dst: int, local: int, primPathID: int, ghost arcs: set<Arc>, ghost paths: map<int, seq<Arc>>)
    returns (pl: PreferredLink)
    requires TreeOf(arcs, rrNodeInfo, paths) && 0 <= dst < |rrNodeInfo| && 0 <= local <= |rrNodeInfo|
    ensures pl == LinksToward(paths, dst, local, primPathID)
  {
    hide TreeOf, PublishedID;
    var nodePrev := dst;
    while true
      invariant 0 <= nodePrev < |rrNodeInfo| && LinksToward(paths, dst, local, primPathID) == LinksToward(paths, nodePrev, local, primPathID)
      decreases nodePrev
    {
      var nodeInfo := rrNodeInfo[nodePrev];
      TreeInfo(arcs, rrNodeInfo, paths, nodePrev);
      if nodeInfo.node == local {
        TreeInfo(arcs, rrNodeInfo, paths, local);
        var up := rrNodeInfo[nodeInfo.node];
        return PreferredLink(PublishedID(primPathID, nodeInfo.virLinkID), if up.node != -1 then PublishedID(primPathID, up.virLinkID) else UINT_MAX);
      }
      if nodeInfo.node == -1 { break; }
      nodePrev := nodeInfo.node;
    }
    pl := PreferredLink(UINT_MAX, UINT_MAX);
  }

  /** Without a way to the destination, no router has a link to send down. */
  lemma NoWayNoLink(arcs: set<Arc>, info: seq<PrevNodeInfo>, paths: map<int, seq<Arc>>, dst: int, local: int, primPathID: int)
    requires TreeOf(arcs, info, paths) && !Reachable(arcs, 0, dst)
    ensures LinksToward(paths, dst, local, primPathID) == PreferredLink(UINT_MAX, UINT_MAX)
  {
  }

  // -------------------------------------------------------- the sub-paths that are skipped

  /** The arcs there would be if sub-paths within an unbroken segment could be taken as well. */
  ghost function OpenArcs(rt: Routes, egress: seq<seq<VirLink>>, m: map<int, LinkStatus>): set<Arc> {
    set u, l | 0 <= u < |egress| && l in egress[u] && l.succRatioInLog.Log? && StatusOf(m, l.linkID) != Failure :: ArcFor(rt, u, l)
  }

  lemma {:induction false} ComponentGrows(rt: Routes, m: map<int, LinkStatus>, u: nat, v: nat)
    requires u <= v
    ensures Component(rt, m, u) <= Component(rt, m, v)
    decreases v
  {
    if u == v {
    } else {
      ComponentGrows(rt, m, u, v - 1);
    }
  }

  lemma PrimUsable(rt: Routes, egress: seq<seq<VirLink>>, m: map<int, LinkStatus>, v: int)
    requires EgressOf(rt, egress) && 0 < v < |egress| && |rt.primRatios| == |egress| && rt.primRatios[v].Log? && !FailedHop(rt, m, v)
    ensures exists a :: a in ArcsOf(rt, egress, m) && a.from == v - 1 && a.to == v
  {
    EgressSizes(rt, egress);
    hide GetLinkID, Layout, StoredID, Component;
    var l := PrimLink(rt, v);
    assert PrimAt(rt, v - 1, l, |egress|);
    assert l in egress[v - 1];
    LinkLeads(rt, egress, v - 1, l);
    assert Usable(rt, m, v - 1, l);
    assert ArcFor(rt, v - 1, l) in ArcsOf(rt, egress, m);
  }

  /** Within an unbroken segment the primary path leads on. */
  lemma {:induction false} AlongSegment(rt: Routes, egress: seq<seq<VirLink>>, m: map<int, LinkStatus>, u: int, v: int)
    requires EgressOf(rt, egress) && 0 <= u <= v < |egress| && Component(rt, m, u) == Component(rt, m, v)
    requires |rt.primRatios| == |egress| && forall i :: 0 < i < |egress| ==> rt.primRatios[i].Log?
    requires Reachable(ArcsOf(rt, egress, m), 0, u)
    ensures Reachable(ArcsOf(rt, egress, m), 0, v)
    decreases v
  {
    hide EgressOf, IsWalk, FailedHop;
    if u == v {
    } else {
      ComponentGrows(rt, m, u, v - 1);
      AlongSegment(rt, egress, m, u, v - 1);
      PrimUsable(rt, egress, m, v);
      var a :| a in ArcsOf(rt, egress, m) && a.from == v - 1 && a.to == v;
      var p :| IsWalk(ArcsOf(rt, egress, m), 0, p, v - 1);
      Extend(ArcsOf(rt, egress, m), 0, p, a);
    }
  }

  /** A sub-path within an unbroken segment is not needed to reach any node. */
  lemma {:induction false} SkippedNotNeeded(rt: Routes, egress: seq<seq<VirLink>>, m: map<int, LinkStatus>, p: seq<Arc>, t: int)
    requires EgressOf(rt, egress) && |rt.primRatios| == |egress| >= 1 && forall i :: 0 < i < |egress| ==> rt.primRatios[i].Log?
    requires IsWalk(OpenArcs(rt, egress, m), 0, p, t)
    ensures Reachable(ArcsOf(rt, egress, m), 0, t)
  {
    var arcs := ArcsOf(rt, egress, m);
    if p == [] {
      assert IsWalk(arcs, 0, [], t);
    } else {
      var a := p[|p| - 1];
      SkippedNotNeeded(rt, egress, m, p[..|p| - 1], a.from);
      hide EgressOf, IsWalk, FailedHop, Component, GetLinkID;
      var u, l :| 0 <= u < |egress| && l in egress[u] && l.succRatioInLog.Log? && StatusOf(m, l.linkID) != Failure && a == ArcFor(rt, u, l);
      LinkLeads(rt, egress, u, l);
      if Usable(rt, m, u, l) {
        assert a in arcs;
        var q :| IsWalk(arcs, 0, q, u);
        Extend(arcs, 0, q, a);
      } else {
        AlongSegment(rt, egress, m, u, t);
      }
    }
  }

  // ------------------------------------------------------------------ the subgraph object

  ghost function AddedAt(egress: seq<seq<VirLink>>, u: int, l: VirLink): seq<seq<VirLink>> {
    if 0 <= u < |egress| then egress[u := egress[u] + [l]] else egress
  }

  /** The links of the primary path up to its i-th node. */
  ghost function PrimRows(rt: Routes, i: int): seq<seq<VirLink>>
    requires Fits(rt) && i <= |rt.primPath.nodeIds|
    decreases i
  {
    if i <= 1 then seq(|rt.primPath.nodeIds|, _ => [])
    else
      FitsSizes(rt);
      AddedAt(PrimRows(rt, i - 1), i - 2, PrimLink(rt, i - 1))
  }

  /** And the first `k` sub-paths of the i-th node. */
  ghost function RspRow(rt: Routes, egress: seq<seq<VirLink>>, i: int, k: int): seq<seq<VirLink>>
    requires Fits(rt) && 1 <= i < |rt.hrsp| && 0 <= k <= |rt.hrsp[i]|
    decreases k
  {
    if k == 0 then egress
    else
      RspSizes(rt, i, k - 1);
      var l := RspLink(rt.hrsp[i][k - 1], rt.rspRatios[i][k - 1]);
      AddedAt(RspRow(rt, egress, i, k - 1), Place(rt, l.nodeIngress), l)
  }

  ghost function RspRows(rt: Routes, egress: seq<seq<VirLink>>, i: int): seq<seq<VirLink>>
    requires Fits(rt) && i <= |rt.hrsp|
    decreases i
  {
    if i <= 1 then egress else RspRow(rt, RspRows(rt, egress, i - 1), i - 1, |rt.hrsp[i - 1]|)
  }

  /** The links that leave each node, in the order in which they are entered. */
  ghost function EgressTable(rt: Routes): seq<seq<VirLink>>
    requires Fits(rt)
  {
    FitsSizes(rt);
    RspRows(rt, PrimRows(rt, |rt.hrsp|), |rt.hrsp|)
  }

  lemma PlaceIs(rt: Routes, nodeId: int, u: int)
    requires Fits(rt) && 0 <= u < |rt.primPath.nodeIds| && rt.primPath.nodeIds[u] == nodeId
    ensures Place(rt, nodeId) == u
  {
    assert NoDup(rt.primPath.nodeIds);
  }

  method NewEgress(rt: Routes) returns (egress: seq<seq<VirLink>>, linkStatusMap: map<int, LinkStatus>)
    requires Fits(rt)
    ensures EgressOf(rt, egress) && egress == EgressTable(rt) && forall id :: id in linkStatusMap ==> linkStatusMap[id] == Normal
  {
    hide EgressUpTo, GetLinkID, Layout, RspFits, Place;
    FitsSizes(rt);
    var n := |rt.primPath.nodeIds|;
    egress := seq(n, _ => []);
    linkStatusMap := map[];
    NoEgress(rt, egress);
    for i := 1 to n
      invariant |egress| == n && egress == PrimRows(rt, i) && EgressUpTo(rt, egress, i, 0, 0) && forall id :: id in linkStatusMap ==> linkStatusMap[id] == Normal
    {
      EgressPrim(rt, egress, i);
      var virLink := PrimLink(rt, i);
      egress := egress[i - 1 := egress[i - 1] + [virLink]];
      linkStatusMap := linkStatusMap[virLink.linkID := Normal];
    }
    NextEgressRow(rt, egress, 0);
    ghost var prims := egress;
    for i := 1 to n
      invariant |egress| == n && egress == RspRows(rt, prims, i) && EgressUpTo(rt, egress, n, i, 0) && forall id :: id in linkStatusMap ==> linkStatusMap[id] == Normal
    {
      ghost var rows := egress;
      for k := 0 to |rt.hrsp[i]|
        invariant |egress| == n && egress == RspRow(rt, rows, i, k) && EgressUpTo(rt, egress, n, i, k) && forall id :: id in linkStatusMap ==> linkStatusMap[id] == Normal
      {
        RspSizes(rt, i, k);
        var rsp := rt.hrsp[i][k];
        var virLink := RspLink(rsp, rt.rspRatios[i][k]);
        RspUpstream(rt, i, k);
        var j := PlaceOf(rt.primPath.nodeIds[..i], virLink.nodeIngress);
        EgressRsp(rt, egress, i, k, j);
        PlaceIs(rt, virLink.nodeIngress, j);
        egress := egress[j := egress[j] + [virLink]];
        linkStatusMap := RspNormal(rsp, linkStatusMap);
      }
      NextEgressRow(rt, egress, i);
    }
  }

  /** Enters a link from the first node to every node of the sub-path: the node before is never moved on. */
  method RspNormal(rsp: PathCompact, m: map<int, LinkStatus>) returns (m': map<int, LinkStatus>)
    requires |rsp.nodeIds| >= 1 && forall id :: id in m ==> m[id] == Normal
    ensures forall id :: id in m' ==> m'[id] == Normal
    ensures rsp.pathID in m'
  {
    hide GetLinkID;
    m' := m;
    var rspNodeIDprev := rsp.nodeIds[0];
    for i := 0 to |rsp.nodeIds|
      invariant forall id :: id in m' ==> m'[id] == Normal
    {
      m' := m'[GetLinkID(rspNodeIDprev, rsp.nodeIds[i]) := Normal];
    }
    m' := m'[rsp.pathID := Normal];
  }

  lemma NoEgress(rt: Routes, egress: seq<seq<VirLink>>)
    requires Fits(rt) && |egress| == |rt.primPath.nodeIds| && forall u :: 0 <= u < |egress| ==> egress[u] == []
    ensures EgressUpTo(rt, egress, 1, 0, 0)
  {
  }

  lemma NextEgressRow(rt: Routes, egress: seq<seq<VirLink>>, i: int)
    requires Fits(rt) && 0 <= i < |rt.hrsp| && EgressUpTo(rt, egress, |egress|, i, if i == 0 then 0 else |rt.hrsp[i]|)
    ensures EgressUpTo(rt, egress, |egress|, i + 1, 0)
  {
  }

  lemma RspUpstream(rt: Routes, i: int, k: int)
    requires Fits(rt) && IsRsp(rt.hrsp, i, k) && |rt.hrsp[i][k].nodeIds| >= 1
    ensures i <= |rt.primPath.nodeIds| && NoDup(rt.primPath.nodeIds[..i])
    ensures rt.hrsp[i][k].nodeIds[|rt.hrsp[i][k].nodeIds| - 1] in rt.primPath.nodeIds[..i]
  {
  }

  class RsgStruct {
    const rt: Routes
    const egress: seq<seq<VirLink>>
    var linkStatusMap: map<int, LinkStatus>
    /** Everything reported so far. */
    ghost var reports: seq<Report>

    /** Each known link has the status reported last, and a sub-path counts as failed if one of its links does. */
    ghost predicate Valid()
      reads this
    {
      && EgressOf(rt, egress) && egress == EgressTable(rt) && ZeroNormal(linkStatusMap)
      && LinksRight(rt.primPath, rt.hrsp, linkStatusMap, reports) && PathsRight(rt.hrsp, linkStatusMap, reports)
    }

    constructor (rt: Routes)
      requires Fits(rt)
      ensures Valid() && this.rt == rt && reports == []
    {
      hide EgressOf, Known, Layout, GetLinkID;
      this.rt := rt;
      var egress, linkStatusMap := NewEgress(rt);
      this.egress, this.linkStatusMap, this.reports := egress, linkStatusMap, [];
    }

    method UpdateLinkStatus(nodeA: int, nodeB: int, status: LinkStatus)
      requires Valid()
      modifies this
      ensures Valid() && reports == old(reports) + [Report(nodeA, nodeB, status)]
    {
      hide EgressOf, LinksRight, PathsRight, Layout, GetLinkID, On, Updating, RspUpdated, ZeroNormal, RspFits;
      ghost var r := Report(nodeA, nodeB, status);
      var primPath, hrsp, m := rt.primPath, rt.hrsp, linkStatusMap;
      EgressSizes(rt, egress);
      FitsSizes(rt);
      UpdateStarts(primPath, hrsp, m, reports, r);
      var virLinkId := SearchVirLink(primPath, nodeA, nodeB);
      if virLinkId != LINK_ID_NULL {
        m := m[virLinkId := status];
      }
      for i := 1 to |primPath.nodeIds|
        invariant reports == old(reports) && Updating(primPath, hrsp, m, reports, r, i, 0)
      {
        for k := 0 to |hrsp[i]|
          invariant reports == old(reports) && Updating(primPath, hrsp, m, reports, r, i, k)
        {
          RspSizes(rt, i, k);
          NodeIdsOfRsp(primPath, hrsp[i][k], i);
          Step(primPath, hrsp, m, reports, r, i, k);
          m := UpdateRsp(m, hrsp[i][k], nodeA, nodeB, status);
        }
        NextRow(primPath, hrsp, m, reports, r, i);
      }
      UpdateEnds(primPath, hrsp, m, reports, r);
      linkStatusMap := m;
      reports := reports + [r];
    }

    /** The links to use up and down at the local node, by a search that all routers do alike. */
    method ComputePreferredPathID(localNodeID: int) returns (pl: PreferredLink, ghost info: seq<PrevNodeInfo>, ghost paths: map<int, seq<Arc>>)
      requires Valid() && SumsFit(ArcsOf(rt, egress, linkStatusMap))
      ensures |info| == |egress| && TreeOf(ArcsOf(rt, egress, linkStatusMap), info, paths)
      ensures info == TreeTable(rt, ArcsOf(rt, egress, linkStatusMap), egress)
      ensures localNodeID in rt.primPath.nodeIds ==>
                pl == LinksToward(paths, |egress| - 1, IndexOf(rt.primPath.nodeIds, localNodeID), rt.primPath.pathID)
      ensures localNodeID !in rt.primPath.nodeIds ==> pl == LinksToward(paths, |egress| - 1, |egress|, rt.primPath.pathID)
    {
      hide EgressOf, LinksRight, PathsRight, GetLinkID, TreeOf, ZeroNormal, SumsFit, ArcsOf, TreeTable;
      EgressSizes(rt, egress);
      var rrNodeInfo;
      rrNodeInfo, paths := PreferredTree(rt, egress, linkStatusMap);
      info := rrNodeInfo;
      var local := PlaceOf(rt.primPath.nodeIds, localNodeID);
      pl := LocalLinks(rrNodeInfo, |rt.primPath.nodeIds| - 1, local, rt.primPath.pathID, ArcsOf(rt, egress, linkStatusMap), paths);
    }

    /** Which links the search may take, by what was reported: of the failed ones only those of the primary path are avoided. */
    lemma UsableMeans(u: int, l: VirLink)
      requires Valid() && 0 <= u < |egress| && l in egress[u]
      ensures |egress| == |rt.primPath.nodeIds| && l.nodeEgress in rt.primPath.nodeIds && u < Place(rt, l.nodeEgress) < |egress|
      ensures Usable(rt, linkStatusMap, u, l) <==>
              l.succRatioInLog.Log? && (if l.isOnPrimPath then LastReport(reports, rt.primPath.nodeIds[u], rt.primPath.nodeIds[u + 1]) == Normal
                                        else exists i :: u < i <= Place(rt, l.nodeEgress)
                                               && LastReport(reports, rt.primPath.nodeIds[i - 1], rt.primPath.nodeIds[i]) == Failure)
    {
      hide EgressOf, LinksRight, PathsRight, GetLinkID, LastReport, Place, Component, FailedHop;
      LinkLeads(rt, egress, u, l);
      EgressSizes(rt, egress);
      var v, ids := Place(rt, l.nodeEgress), rt.primPath.nodeIds;
      PlaceIn(rt, l.nodeEgress);
      HopMeans(u + 1);
      if l.isOnPrimPath {
        assert Usable(rt, linkStatusMap, u, l) <==> l.succRatioInLog.Log? && !FailedHop(rt, linkStatusMap, u + 1) by { HopFailed(rt, linkStatusMap, u + 1); }
      } else {
        ComponentsApart(rt, linkStatusMap, u, v);
        forall i | u < i <= v ensures FailedHop(rt, linkStatusMap, i) <==> LastReport(reports, ids[i - 1], ids[i]) == Failure {
          HopMeans(i);
        }
        if i :| u < i <= v && FailedHop(rt, linkStatusMap, i) {
          assert LastReport(reports, ids[i - 1], ids[i]) == Failure;
        }
      }
    }

    lemma HopMeans(i: int)
      requires Valid() && 0 < i < |rt.primPath.nodeIds|
      ensures FailedHop(rt, linkStatusMap, i) <==> LastReport(reports, rt.primPath.nodeIds[i - 1], rt.primPath.nodeIds[i]) == Failure
    {
      hide EgressOf, PathsRight, GetLinkID, LastReport, Known;
      PrimHopKnown(rt.primPath, rt.hrsp, i);
    }
  }

  lemma PlaceIn(rt: Routes, nodeId: int)
    requires 0 <= Place(rt, nodeId)
    ensures nodeId in rt.primPath.nodeIds
  {
  }

  lemma HopFailed(rt: Routes, m: map<int, LinkStatus>, i: int)
    requires 0 < i < |rt.primPath.nodeIds|
    ensures FailedHop(rt, m, i) <==> StatusOf(m, GetLinkID(rt.primPath.nodeIds[i - 1], rt.primPath.nodeIds[i])) == Failure
  {
  }

  lemma NodeIdsOfRsp(primPath: PathCompact, rsp: PathCompact, i: int)
    requires RspFits(primPath, rsp, i)
    ensures NodeIdsFit(rsp)
  {
  }

  lemma PrimHopKnown(primPath: PathCompact, hrsp: seq<seq<PathCompact>>, i: int)
    requires 0 < i < |primPath.nodeIds|
    ensures Known(primPath, hrsp, primPath.nodeIds[i - 1], primPath.nodeIds[i])
  {
    assert HopAt(primPath, i, primPath.nodeIds[i - 1], primPath.nodeIds[i]);
  }

  /** Two nodes are in different segments exactly if a link between them has failed. */
  lemma {:induction false} ComponentsApart(rt: Routes, m: map<int, LinkStatus>, u: nat, v: nat)
    requires u <= v
    ensures Component(rt, m, u) != Component(rt, m, v) <==> exists i :: u < i <= v && FailedHop(rt, m, i)
    decreases v
  {
    hide FailedHop;
    if u == v {
    } else {
      ComponentsApart(rt, m, u, v - 1);
      ComponentGrows(rt, m, u, v - 1);
      if FailedHop(rt, m, v) {
      } else if i :| u < i <= v && FailedHop(rt, m, i) {
        assert u < i <= v - 1;
      }
    }
  }
}
