/**
 * The network graph: per node the vectors of its links, every link entered at both ends, and one
 * spare node at the end that serves as a temporary destination joined to any set of nodes.
 */
module LltcGraph {
  import opened Common
  import opened FibonacciForest
  import opened ShortestPaths

  /** A link is never changed once it is created. */
  datatype LltcLink = LltcLink(linkId: int, nodeA: int, nodeB: int, abDelayTotal: int, baDelayTotal: int,
                               abDelayQueue: int, baDelayQueue: int, abRelia: real, baRelia: real)

  /** The far end of a link; -1 if the node is at neither end. */
  function GetLinkOpSide(e: LltcLink, c: int): (r: int)
    ensures (c == e.nodeA && r == e.nodeB) || (c == e.nodeB && r == e.nodeA) || (r == -1 && c !in {e.nodeA, e.nodeB})
  {
    if c == e.nodeA then e.nodeB else if c == e.nodeB then e.nodeA else -1
  }

  function GetLinkDelayTotal(e: LltcLink, a: int, b: int): int {
    if e.nodeA == a && e.nodeB == b then e.abDelayTotal
    else if e.nodeB == a && e.nodeA == b then e.baDelayTotal
    else -1
  }

  function GetLinkDelayQueue(e: LltcLink, a: int, b: int): int {
    if e.nodeA == a && e.nodeB == b then e.abDelayQueue
    else if e.nodeB == a && e.nodeA == b then e.baDelayQueue
    else -1
  }

  function GetLinkRelia(e: LltcLink, a: int, b: int): real {
    if e.nodeA == a && e.nodeB == b then e.abRelia
    else if e.nodeB == a && e.nodeA == b then e.baRelia
    else -1.0
  }

  /** The link joins these nodes, and whichever end it was entered from, these are its delays from `u` to `v`. */
  ghost predicate Delays(e: LltcLink, u: int, v: int, total: int, queue: int) {
    || (e.nodeA == u && e.nodeB == v && e.abDelayTotal == total && e.abDelayQueue == queue)
    || (e.nodeA == v && e.nodeB == u && u != v && e.baDelayTotal == total && e.baDelayQueue == queue)
  }

  /** And these are the chances that a packet gets from `u` to `v`, and back. */
  ghost predicate Chances(e: LltcLink, u: int, v: int, forth: real, back: real) {
    || (e.nodeA == u && e.nodeB == v && u != v && e.abRelia == forth && e.baRelia == back)
    || (e.nodeA == v && e.nodeB == u && u != v && e.baRelia == forth && e.abRelia == back)
  }

  type Adjacency = seq<seq<LltcLink>>

  /** The first link at `a` that also ends at `b`. */
  function FindLink(links: seq<LltcLink>, b: int): (r: Option<LltcLink>)
    ensures r.Some? ==> r.value in links && (r.value.nodeB == b || r.value.nodeA == b)
    ensures r.None? ==> forall e :: e in links ==> e.nodeB != b && e.nodeA != b
  {
    if links == [] then None
    else if links[0].nodeB == b || links[0].nodeA == b then Some(links[0])
    else FindLink(links[1..], b)
  }

  /** Every link joins two different nodes below `n` and is entered at both. */
  ghost predicate Ends(adj: Adjacency, n: int) {
    0 <= n <= |adj| && forall u, e {:trigger e in adj[u]} :: 0 <= u < n && e in adj[u] ==>
      && (e.nodeA == u || e.nodeB == u) && e.nodeA != e.nodeB
      && 0 <= GetLinkOpSide(e, u) < n && e in adj[GetLinkOpSide(e, u)]
  }

  ghost predicate OnePerPair(adj: Adjacency, n: int) {
    0 <= n <= |adj| && forall u, e, f {:trigger e in adj[u], f in adj[u]} :: 0 <= u < n && e in adj[u] && f in adj[u] ==>
      GetLinkOpSide(e, u) == GetLinkOpSide(f, u) ==> e == f
  }

  ghost predicate OnePerId(adj: Adjacency, n: int) {
    0 <= n <= |adj| && forall u, v, e, f {:trigger e in adj[u], f in adj[v]} ::
      0 <= u < n && 0 <= v < n && e in adj[u] && f in adj[v] && e.linkId == f.linkId ==> e == f
  }

  /** A simple graph on the first `n` nodes, with distinct link ids. */
  ghost predicate Joined(adj: Adjacency, n: int) {
    Ends(adj, n) && OnePerPair(adj, n) && OnePerId(adj, n)
  }

  ghost predicate IdsBelow(adj: Adjacency, n: int, id: int) {
    0 <= n <= |adj| && forall u, e {:trigger e in adj[u]} :: 0 <= u < n && e in adj[u] ==> 0 <= e.linkId < id
  }

  ghost predicate DelaysFit(adj: Adjacency, n: int) {
    0 <= n <= |adj| && forall u, e {:trigger e in adj[u]} :: 0 <= u < n && e in adj[u] ==> e.abDelayTotal >= 0
  }

  function ArcOf(e: LltcLink, u: int): Arc {
    Arc(u, GetLinkOpSide(e, u), e.abDelayTotal, e.linkId)
  }

  /** The arcs a search may use: both directions of every link that is not forbidden. */
  ghost function ArcsOf(adj: Adjacency, n: int, forbidden: set<int>): set<Arc>
    requires 0 <= n <= |adj|
  {
    set u, e | 0 <= u < n && e in adj[u] && e.linkId !in forbidden :: ArcOf(e, u)
  }

  // ------------------------------------------------------------- the spare node

  function VirtLink(id: int, a: int, n: int): LltcLink {
    LltcLink(id, a, n, 0, 0, 0, 0, 1.0, 1.0)
  }

  function Entered(adj: Adjacency, link: LltcLink): Adjacency
    requires 0 <= link.nodeA < |adj| && 0 <= link.nodeB < |adj| && link.nodeA != link.nodeB
  {
    adj[link.nodeA := adj[link.nodeA] + [link]][link.nodeB := adj[link.nodeB] + [link]]
  }

  ghost predicate Neighbours(ids: seq<int>, n: int) {
    NoDup(ids) && forall i :: 0 <= i < |ids| ==> 0 <= ids[i] < n
  }

  /** The vectors once the spare node `n` is joined to each of `ids`. */
  function WithVirt(adj: Adjacency, n: int, ids: seq<int>, base: int): (r: Adjacency)
    requires 0 <= n < |adj| && forall i :: 0 <= i < |ids| ==> 0 <= ids[i] < n
    ensures |r| == |adj|
  {
    if ids == [] then adj
    else
      var k := |ids| - 1;
      Entered(WithVirt(adj, n, ids[..k], base), VirtLink(base + k, ids[k], n))
  }

  /** Each neighbour got one link at its end, the spare node all of them; nothing else changed. */
  ghost predicate VirtAt(adj: Adjacency, r: Adjacency, n: int, ids: seq<int>, base: int) {
    && |r| == |adj| && 0 <= n < |adj| && Neighbours(ids, n)
    && |r[n]| == |ids| && (forall i :: 0 <= i < |ids| ==> r[n][i] == VirtLink(base + i, ids[i], n))
    && (forall i :: 0 <= i < |ids| ==> r[ids[i]] == adj[ids[i]] + [VirtLink(base + i, ids[i], n)])
    && (forall u :: 0 <= u < |adj| && u != n && u !in ids ==> r[u] == adj[u])
  }

  lemma VirtAtOthers(adj: Adjacency, r: Adjacency, n: int, ids: seq<int>, base: int)
    requires |ids| > 0 && Neighbours(ids, n) && VirtAt(adj, r, n, ids[..|ids| - 1], base)
    ensures forall u :: 0 <= u < |adj| && u != n && u !in ids ==> Entered(r, VirtLink(base + |ids| - 1, ids[|ids| - 1], n))[u] == adj[u]
  {
  }

  lemma VirtAtNeighbour(adj: Adjacency, r: Adjacency, n: int, ids: seq<int>, base: int, i: int)
    requires 0 <= i < |ids| && Neighbours(ids, n) && VirtAt(adj, r, n, ids[..|ids| - 1], base)
    ensures Entered(r, VirtLink(base + |ids| - 1, ids[|ids| - 1], n))[ids[i]] == adj[ids[i]] + [VirtLink(base + i, ids[i], n)]
  {
    var k := |ids| - 1;
    if i < k {
      assert ids[..k][i] == ids[i];
      assert r[ids[..k][i]] == adj[ids[..k][i]] + [VirtLink(base + i, ids[..k][i], n)];
    } else {
      assert ids[k] !in ids[..k];
    }
  }

  lemma VirtAtSpare(adj: Adjacency, r: Adjacency, n: int, ids: seq<int>, base: int)
    requires |ids| > 0 && Neighbours(ids, n) && VirtAt(adj, r, n, ids[..|ids| - 1], base)
    ensures ids[|ids| - 1] !in ids[..|ids| - 1]
    ensures var r' := Entered(r, VirtLink(base + |ids| - 1, ids[|ids| - 1], n));
            |r'[n]| == |ids| && forall i :: 0 <= i < |ids| ==> r'[n][i] == VirtLink(base + i, ids[i], n)
  {
    var k := |ids| - 1;
    assert ids[k] !in ids[..k];
    assert forall i :: 0 <= i < k ==> r[n][i] == VirtLink(base + i, ids[..k][i], n) == VirtLink(base + i, ids[i], n);
  }

  lemma VirtAtStep(adj: Adjacency, r: Adjacency, n: int, ids: seq<int>, base: int)
    requires |ids| > 0 && Neighbours(ids, n) && VirtAt(adj, r, n, ids[..|ids| - 1], base)
    ensures ids[|ids| - 1] !in ids[..|ids| - 1]
    ensures VirtAt(adj, Entered(r, VirtLink(base + |ids| - 1, ids[|ids| - 1], n)), n, ids, base)
  {
    var r' := Entered(r, VirtLink(base + |ids| - 1, ids[|ids| - 1], n));
    assert |r'| == |adj| && 0 <= n < |adj|;
    VirtAtSpare(adj, r, n, ids, base);
    VirtAtOthers(adj, r, n, ids, base);
    forall i | 0 <= i < |ids| ensures r'[ids[i]] == adj[ids[i]] + [VirtLink(base + i, ids[i], n)] {
      VirtAtNeighbour(adj, r, n, ids, base, i);
    }
    hide NoDup, Entered, VirtLink;
  }

  lemma {:induction false} WithVirtAt(adj: Adjacency, n: int, ids: seq<int>, base: int)
    requires 0 <= n < |adj| && adj[n] == [] && Neighbours(ids, n)
    ensures VirtAt(adj, WithVirt(adj, n, ids, base), n, ids, base)
  {
    if ids == [] {
    } else {
      hide VirtAt, NoDup, Entered;
      assert Neighbours(ids[..|ids| - 1], n) by { FewerNeighbours(ids, n); }
      WithVirtAt(adj, n, ids[..|ids| - 1], base);
      VirtAtStep(adj, WithVirt(adj, n, ids[..|ids| - 1], base), n, ids, base);
    }
  }

  lemma FewerNeighbours(ids: seq<int>, n: int)
    requires |ids| > 0 && Neighbours(ids, n)
    ensures Neighbours(ids[..|ids| - 1], n)
  {
  }

  lemma SpareJoined(adj: Adjacency, n: int, base: int)
    requires 0 <= n < |adj| && adj[n] == [] && Joined(adj, n) && IdsBelow(adj, n, base)
    ensures Joined(adj, n + 1) && IdsBelow(adj, n + 1, base)
  {
    assert forall u, e {:trigger e in adj[u]} :: 0 <= u < n + 1 && e in adj[u] ==> u < n;
    assert Ends(adj, n + 1) by { hide OnePerPair, OnePerId, IdsBelow; }
    assert OnePerPair(adj, n + 1) by { hide Ends, OnePerId, IdsBelow; }
    assert OnePerId(adj, n + 1) by { hide Ends, OnePerPair, IdsBelow; }
    assert IdsBelow(adj, n + 1, base) by { hide Ends, OnePerPair, OnePerId; }
  }

  lemma VirtAtFresh(adj: Adjacency, r: Adjacency, n: int, ids: seq<int>, base: int, u: int)
    requires VirtAt(adj, r, n, ids, base) && Joined(adj, n) && 0 <= u < n && u !in ids
    ensures FindLink(r[u], n).None?
  {
  }

  /** The graph with the spare node is as simple as the graph without it. */
  lemma {:induction false} WithVirtJoined(adj: Adjacency, n: int, ids: seq<int>, base: int)
    requires 0 <= n < |adj| && adj[n] == [] && Joined(adj, n) && IdsBelow(adj, n, base) && base >= 0 && Neighbours(ids, n)
    ensures Joined(WithVirt(adj, n, ids, base), n + 1) && IdsBelow(WithVirt(adj, n, ids, base), n + 1, base + |ids|)
  {
    hide Joined, IdsBelow, VirtAt, NoDup;
    if ids == [] {
      SpareJoined(adj, n, base);
    } else {
      var k := |ids| - 1;
      FewerNeighbours(ids, n);
      WithVirtJoined(adj, n, ids[..k], base);
      WithVirtAt(adj, n, ids[..k], base);
      var r := WithVirt(adj, n, ids[..k], base);
      VirtAtStep(adj, r, n, ids, base);
      VirtAtFresh(adj, r, n, ids[..k], base, ids[k]);
      AddedJoined(r, n + 1, VirtLink(base + k, ids[k], n), base + k);
    }
  }

  /** A vector without the first entry equal to `l`, as `erase` of what `find` returns leaves it. */
  function Erased(v: seq<LltcLink>, l: LltcLink): seq<LltcLink> {
    if v == [] then [] else if v[0] == l then v[1..] else [v[0]] + Erased(v[1..], l)
  }

  lemma {:induction false} ErasedLast(v: seq<LltcLink>, l: LltcLink)
    requires l !in v
    ensures Erased(v + [l], l) == v
  {
    if v == [] {
    } else {
      assert (v + [l])[1..] == v[1..] + [l];
      ErasedLast(v[1..], l);
    }
  }

  lemma NoLinks(adj: Adjacency, n: int)
    requires 0 <= n < |adj| && forall u :: 0 <= u < |adj| ==> adj[u] == []
    ensures Joined(adj, n) && IdsBelow(adj, n, 0)
  {
    assert forall u, e {:trigger e in adj[u]} :: 0 <= u < |adj| ==> e !in adj[u];
    hide GetLinkOpSide;
  }

  class LltcGraph {
    /** One vector of outgoing and one of incoming links per node; the last node is the spare one. */
    var eLinks: Adjacency
    var iLinks: Adjacency
    var nNodes: int
    var maxLinkId: int
    var maxVirtLinkId: int

    /** Every link is entered in both vectors of both its ends, so the vectors agree. */
    ghost predicate Valid()
      reads this
    {
      && nNodes >= 0 && |eLinks| == nNodes + 1 && iLinks == eLinks && eLinks[nNodes] == []
      && Joined(eLinks, nNodes)
      && IdsBelow(eLinks, nNodes, maxLinkId) && maxLinkId >= 0
    }

    constructor (nNodes: int)
      requires nNodes >= 0
      ensures Valid() && this.nNodes == nNodes
    {
      hide Joined, IdsBelow;
      var none: Adjacency := seq(nNodes + 1, _ => []);
      NoLinks(none, nNodes);
      this.nNodes := nNodes;
      eLinks, iLinks := none, none;
      maxLinkId := 0;
      maxVirtLinkId := 0;
    }

    method GetLinkByNodeIds(a: int, b: int) returns (r: Option<LltcLink>)
      requires 0 <= a < |eLinks|
      ensures r == FindLink(eLinks[a], b)
    {
      var i := 0;
      while i < |eLinks[a]|
        invariant 0 <= i <= |eLinks[a]| && FindLink(eLinks[a], b) == FindLink(eLinks[a][i..], b)
      {
        var e := eLinks[a][i];
        if e.nodeB == b || e.nodeA == b {
          return Some(e);
        }
        i := i + 1;
      }
      r := None;
    }

    /** The second reliability is dropped: both directions get the first one. */
    method AddLinkDual(a: int, b: int, abRelia: real, baRelia: real, abDelayTotal: int, baDelayTotal: int,
                       abDelayQueue: int, baDelayQueue: int) returns (link: LltcLink)
      requires Valid() && 0 <= a < nNodes && 0 <= b < nNodes && a != b && FindLink(eLinks[a], b).None?
      modifies this
      ensures Valid() && nNodes == old(nNodes) && maxLinkId == old(maxLinkId) + 1
      ensures link == LltcLink(old(maxLinkId), a, b, abDelayTotal, baDelayTotal, abDelayQueue, baDelayQueue, abRelia, abRelia)
      ensures Delays(link, a, b, abDelayTotal, abDelayQueue) && Delays(link, b, a, baDelayTotal, baDelayQueue) && Chances(link, a, b, abRelia, abRelia)
      ensures eLinks == old(eLinks)[a := old(eLinks)[a] + [link]][b := old(eLinks)[b] + [link]]
    {
      link := LltcLink(maxLinkId, a, b, abDelayTotal, baDelayTotal, abDelayQueue, baDelayQueue, abRelia, abRelia);
      hide Joined, IdsBelow;
      AddedJoined(eLinks, nNodes, link, maxLinkId);
      var e, i := eLinks, iLinks;
      e := e[a := e[a] + [link]];
      i := i[b := i[b] + [link]];
      e := e[b := e[b] + [link]];
      i := i[a := i[a] + [link]];
      assert i == e;
      eLinks, iLinks := e, i;
      maxLinkId := maxLinkId + 1;
    }

    method AddVirtLinkDual(a: int, b: int)
      requires 0 <= a < |eLinks| == |iLinks| && 0 <= b < |eLinks| && a != b
      modifies this`eLinks, this`iLinks, this`maxVirtLinkId
      ensures var link := VirtLink(old(maxVirtLinkId), a, b);
              eLinks == Entered(old(eLinks), link) && iLinks == Entered(old(iLinks), link)
      ensures maxVirtLinkId == old(maxVirtLinkId) + 1
    {
      var link := VirtLink(maxVirtLinkId, a, b);
      var e, i := eLinks, iLinks;
      e := e[a := e[a] + [link]];
      i := i[b := i[b] + [link]];
      e := e[b := e[b] + [link]];
      i := i[a := i[a] + [link]];
      assert i == Entered(iLinks, link);
      eLinks, iLinks := e, i;
      maxVirtLinkId := maxVirtLinkId + 1;
    }

    /** Joins the spare node to every node of `neighborNodeIds`. */
    method AddVirtNode(neighborNodeIds: seq<int>) returns (virDstNode: int)
      requires Valid() && maxVirtLinkId == maxLinkId && Neighbours(neighborNodeIds, nNodes)
      modifies this`eLinks, this`iLinks, this`maxVirtLinkId
      ensures virDstNode == nNodes && iLinks == eLinks
      ensures eLinks == WithVirt(old(eLinks), nNodes, neighborNodeIds, maxLinkId)
    {
      hide Joined, IdsBelow;
      virDstNode := nNodes;
      var i := 0;
      while i < |neighborNodeIds|
        invariant 0 <= i <= |neighborNodeIds| && maxVirtLinkId == maxLinkId + i
        invariant iLinks == eLinks == WithVirt(old(eLinks), nNodes, neighborNodeIds[..i], maxLinkId)
      {
        assert neighborNodeIds[..i + 1][..i] == neighborNodeIds[..i];
        AddVirtLinkDual(neighborNodeIds[i], virDstNode);
        i := i + 1;
      }
      assert neighborNodeIds[..i] == neighborNodeIds;
    }

    /** Takes the links of the spare node out again: the vectors end exactly as they began. */
    method RemoveVirtNode(ghost adj: Adjacency, ghost ids: seq<int>)
      requires |adj| == nNodes + 1 && nNodes >= 0 && adj[nNodes] == [] && Joined(adj, nNodes) && IdsBelow(adj, nNodes, maxLinkId) && maxLinkId >= 0
      requires Neighbours(ids, nNodes) && iLinks == eLinks == WithVirt(adj, nNodes, ids, maxLinkId)
      modifies this`eLinks, this`iLinks, this`maxVirtLinkId
      ensures Valid() && maxVirtLinkId == maxLinkId && eLinks == adj
    {
      hide Joined, WithVirt, NoDup;
      WithVirtAt(adj, nNodes, ids, maxLinkId);
      var n := nNodes;
      iLinks := EraseAtOpSide(eLinks[n], iLinks, n, adj, ids, maxLinkId);
      eLinks := EraseAtOpSide(iLinks[n], eLinks, n, adj, ids, maxLinkId);
      iLinks := iLinks[n := []];
      eLinks := eLinks[n := []];
      assert eLinks == adj;
      maxVirtLinkId := maxLinkId;
    }
  }

  /** The body of both loops of RemoveVirtNode: erases each link of the spare node at its other end. */
  method EraseAtOpSide(links: seq<LltcLink>, vectors: Adjacency, n: int, ghost adj: Adjacency, ghost ids: seq<int>, ghost base: int)
    returns (r: Adjacency)
    requires VirtAt(adj, vectors, n, ids, base) && links == vectors[n] && |adj| == n + 1 && IdsBelow(adj, n, base)
    ensures |r| == |vectors| && r[n] == vectors[n] && forall u :: 0 <= u < n ==> r[u] == adj[u]
  {
    hide NoDup;
    r := vectors;
    var i := 0;
    while i < |links|
      invariant 0 <= i <= |links| == |ids| && |r| == |vectors| && r[n] == vectors[n]
      invariant forall j :: 0 <= j < i ==> r[ids[j]] == adj[ids[j]]
      invariant forall j :: i <= j < |ids| ==> r[ids[j]] == vectors[ids[j]]
      invariant forall u :: 0 <= u < n && u !in ids ==> r[u] == adj[u]
    {
      var l := links[i];
      var nodeB := GetLinkOpSide(l, n);
      assert l == VirtLink(base + i, ids[i], n) && nodeB == ids[i] && l !in adj[ids[i]];
      ErasedLast(adj[ids[i]], l);
      Distinct(ids, i);
      r := r[nodeB := Erased(r[nodeB], l)];
      i := i + 1;
    }
    forall u | 0 <= u < n ensures r[u] == adj[u] {
      if u in ids {
        var j := IndexOf(ids, u);
        assert r[ids[j]] == adj[ids[j]];
      }
    }
  }

  lemma Distinct(ids: seq<int>, i: nat)
    requires NoDup(ids) && i < |ids|
    ensures forall j :: 0 <= j < |ids| && j != i ==> ids[j] != ids[i]
  {
  }

  /** `adj'` is `adj` with one link entered at both its ends. */
  ghost predicate Added(adj: Adjacency, adj': Adjacency, n: int, link: LltcLink) {
    && 0 <= n <= |adj| == |adj'| && 0 <= link.nodeA < n && 0 <= link.nodeB < n && link.nodeA != link.nodeB
    && forall u, e {:trigger e in adj'[u]} {:trigger e in adj[u]} :: 0 <= u < n ==>
         (e in adj'[u] <==> e in adj[u] || (e == link && (u == link.nodeA || u == link.nodeB)))
  }

  lemma AddedEnds(adj: Adjacency, adj': Adjacency, n: int, link: LltcLink)
    requires Added(adj, adj', n, link) && Ends(adj, n)
    ensures Ends(adj', n)
  {
  }

  lemma AddedOnePerPair(adj: Adjacency, adj': Adjacency, n: int, link: LltcLink)
    requires Added(adj, adj', n, link) && Ends(adj, n) && OnePerPair(adj, n)
    requires forall e :: e in adj[link.nodeA] ==> e.nodeB != link.nodeB && e.nodeA != link.nodeB
    ensures OnePerPair(adj', n)
  {
    var b := link.nodeB;
    forall e | e in adj[b] ensures GetLinkOpSide(e, b) != link.nodeA {
      assert e in adj[GetLinkOpSide(e, b)];
    }
    hide Ends;
    forall u, e, f | 0 <= u < n && e in adj'[u] && f in adj'[u] && GetLinkOpSide(e, u) == GetLinkOpSide(f, u) ensures e == f {
    }
  }

  lemma AddedOnePerId(adj: Adjacency, adj': Adjacency, n: int, link: LltcLink, id: int)
    requires Added(adj, adj', n, link) && OnePerId(adj, n) && IdsBelow(adj, n, id) && link.linkId == id >= 0
    ensures OnePerId(adj', n) && IdsBelow(adj', n, id + 1)
  {
  }

  lemma AddedJoined(adj: Adjacency, n: int, link: LltcLink, id: int)
    requires Joined(adj, n) && IdsBelow(adj, n, id) && id >= 0
    requires 0 <= link.nodeA < n && 0 <= link.nodeB < n && link.nodeA != link.nodeB && link.linkId == id
    requires FindLink(adj[link.nodeA], link.nodeB).None?
    ensures var adj' := adj[link.nodeA := adj[link.nodeA] + [link]][link.nodeB := adj[link.nodeB] + [link]];
            Joined(adj', n) && IdsBelow(adj', n, id + 1)
  {
    var adj' := adj[link.nodeA := adj[link.nodeA] + [link]][link.nodeB := adj[link.nodeB] + [link]];
    hide Ends, OnePerPair, OnePerId;
    assert Added(adj, adj', n, link);
    hide Added;
    AddedEnds(adj, adj', n, link);
    AddedOnePerPair(adj, adj', n, link);
    AddedOnePerId(adj, adj', n, link, id);
  }
}
