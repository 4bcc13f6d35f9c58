/**
 * One link-state advertisement on its way through the network.  Advertisements of different ids do not
 * influence each other, since routers look only for the id they are given.
 */
module LsaFlooding {

  /** The faces of each router: the router at the other end, or -1 for a face that leads to none. */
  type Network = seq<seq<int>>

  ghost predicate Wired(net: Network) {
    forall r, i :: 0 <= r < |net| && 0 <= i < |net[r]| ==> -1 <= net[r][i] < |net|
  }

  /**
   * The routers that packets in flight are addressed to, the routers that know the id, how often each router
   * has updated its paths on receiving it, and the number of packets sent so far.
   */
  datatype Flood = Flood(inFlight: multiset<int>, seen: set<int>, applied: multiset<int>, sent: nat)

  datatype Hop = Deliver(to: int) | Lose(to: int)

  /** The packets that a router sending over all its faces puts in flight. */
  function Addressed(faces: seq<int>): multiset<int> {
    if faces == [] then multiset{}
    else Addressed(faces[..|faces| - 1]) + if faces[|faces| - 1] == -1 then multiset{} else multiset{faces[|faces| - 1]}
  }

  /** The originator sends over all its faces, but does not note the id as known. */
  function Originated(net: Network, origin: int): Flood
    requires 0 <= origin < |net|
  {
    Flood(Addressed(net[origin]), {}, multiset{}, |net[origin]|)
  }

  function Hopped(net: Network, f: Flood, h: Hop): Flood
    requires h.to in f.inFlight && 0 <= h.to < |net|
  {
    var rest := f.inFlight - multiset{h.to};
    if h.Lose? || h.to in f.seen then f.(inFlight := rest)
    else Flood(rest + Addressed(net[h.to]), f.seen + {h.to}, f.applied + multiset{h.to}, f.sent + |net[h.to]|)
  }

  ghost predicate Floods(net: Network, origin: int, hs: seq<Hop>, f: Flood) {
    if hs == [] then 0 <= origin < |net| && f == Originated(net, origin)
    else
      var h := hs[|hs| - 1];
      exists f0 :: Floods(net, origin, hs[..|hs| - 1], f0) && h.to in f0.inFlight && 0 <= h.to < |net| && f == Hopped(net, f0, h)
  }

  // ---------------------------------------------------------------------------- counting

  /** The faces of the first k routers that are not in `seen`. */
  ghost function UnseenFaces(net: Network, seen: set<int>, k: nat): nat
    requires k <= |net|
  {
    if k == 0 then 0 else UnseenFaces(net, seen, k - 1) + if k - 1 in seen then 0 else |net[k - 1]|
  }

  ghost function AllFaces(net: Network): nat {
    UnseenFaces(net, {}, |net|)
  }

  lemma {:induction false} SeenFaces(net: Network, seen: set<int>, r: int, k: nat)
    requires k <= |net| && 0 <= r < |net| && r !in seen
    ensures UnseenFaces(net, seen, k) == UnseenFaces(net, seen + {r}, k) + if r < k then |net[r]| else 0
  {
    if k == 0 {
    } else {
      SeenFaces(net, seen, r, k - 1);
    }
  }

  lemma {:induction false} AddressedFew(faces: seq<int>)
    ensures |Addressed(faces)| <= |faces|
    ensures forall n :: n in Addressed(faces) <==> n in faces && n != -1
  {
    if faces == [] {
    } else {
      AddressedFew(faces[..|faces| - 1]);
      assert faces == faces[..|faces| - 1] + [faces[|faces| - 1]];
    }
  }

  /** What may still be sent: the packets in flight, and one per face of each router that does not know the id. */
  ghost function Potential(net: Network, f: Flood): nat {
    |f.inFlight| + UnseenFaces(net, f.seen, |net|)
  }

  ghost predicate Counted(net: Network, origin: int, f: Flood) {
    && 0 <= origin < |net| && Wired(net)
    && f.sent + UnseenFaces(net, f.seen, |net|) == AllFaces(net) + |net[origin]|
    && (forall r :: r in f.applied <==> r in f.seen) && (forall r {:trigger f.applied[r]} :: f.applied[r] <= 1)
    && (forall r :: r in f.inFlight || r in f.seen ==> 0 <= r < |net|)
  }

  lemma CountedStart(net: Network, origin: int)
    requires Wired(net) && 0 <= origin < |net|
    ensures Counted(net, origin, Originated(net, origin)) && Potential(net, Originated(net, origin)) <= AllFaces(net) + |net[origin]|
  {
    AddressedFew(net[origin]);
  }

  lemma CountedHop(net: Network, origin: int, f: Flood, h: Hop)
    requires Counted(net, origin, f) && h.to in f.inFlight
    ensures Counted(net, origin, Hopped(net, f, h)) && Potential(net, Hopped(net, f, h)) < Potential(net, f)
  {
    if !(h.Lose? || h.to in f.seen) {
      AddressedFew(net[h.to]);
      SeenFaces(net, f.seen, h.to, |net|);
    }
  }

  /**
   * Flooding ends: a run of any deliveries and losses is no longer than the number of all faces and the
   * originator's, which also bounds the packets sent; and no router relays or applies the id twice.
   */
  lemma {:induction false} FloodingEnds(net: Network, origin: int, hs: seq<Hop>, f: Flood)
    requires Wired(net) && Floods(net, origin, hs, f)
    ensures 0 <= origin < |net| && Counted(net, origin, f)
    ensures |hs| + Potential(net, f) <= AllFaces(net) + |net[origin]| && f.sent <= AllFaces(net) + |net[origin]|
    ensures forall r {:trigger f.applied[r]} :: f.applied[r] <= 1
  {
    hide Counted, Potential, AllFaces, Hopped, Wired;
    if hs == [] {
      CountedStart(net, origin);
    } else {
      var h := hs[|hs| - 1];
      var f0 :| Floods(net, origin, hs[..|hs| - 1], f0) && h.to in f0.inFlight && 0 <= h.to < |net| && f == Hopped(net, f0, h);
      FloodingEnds(net, origin, hs[..|hs| - 1], f0);
      CountedHop(net, origin, f0, h);
    }
    CountedSent(net, origin, f);
  }

  lemma CountedSent(net: Network, origin: int, f: Flood)
    requires Counted(net, origin, f)
    ensures f.sent <= AllFaces(net) + |net[origin]| && forall r {:trigger f.applied[r]} :: f.applied[r] <= 1
  {
  }

  // ------------------------------------------------------------------------- reaching all

  /** Every neighbour of a router that has sent the id knows it, or has it coming. */
  ghost predicate Spreads(net: Network, origin: int, f: Flood) {
    && Wired(net)
    && (forall r :: r in f.seen ==> 0 <= r < |net|)
    && forall r, n {:trigger n in net[r]} :: (r == origin || r in f.seen) && 0 <= r < |net| && n in net[r] && n != -1 ==> n in f.seen || n in f.inFlight
  }

  lemma SpreadsStart(net: Network, origin: int)
    requires Wired(net) && 0 <= origin < |net|
    ensures Spreads(net, origin, Originated(net, origin))
  {
    AddressedFew(net[origin]);
  }

  lemma SpreadsDelivery(net: Network, origin: int, f: Flood, r: int)
    requires Spreads(net, origin, f) && r in f.inFlight && 0 <= r < |net|
    ensures Spreads(net, origin, Hopped(net, f, Deliver(r)))
  {
    AddressedFew(net[r]);
    hide Addressed;
  }

  lemma {:induction false} SpreadsWithoutLoss(net: Network, origin: int, hs: seq<Hop>, f: Flood)
    requires Wired(net) && Floods(net, origin, hs, f) && forall h :: h in hs ==> h.Deliver?
    ensures Spreads(net, origin, f)
  {
    hide Spreads, Hopped, Originated, Wired;
    if hs == [] {
      SpreadsStart(net, origin);
    } else {
      var h := hs[|hs| - 1];
      var f0 :| Floods(net, origin, hs[..|hs| - 1], f0) && h.to in f0.inFlight && 0 <= h.to < |net| && f == Hopped(net, f0, h);
      SpreadsWithoutLoss(net, origin, hs[..|hs| - 1], f0);
      SpreadsDelivery(net, origin, f0, h.to);
      assert h in hs && h == Deliver(h.to);
    }
  }

  /** `route` goes from router to router over their faces. */
  ghost predicate Route(net: Network, route: seq<int>) {
    && |route| >= 1 && (forall i :: 0 <= i < |route| ==> 0 <= route[i] < |net|)
    && (forall i :: 0 < i < |route| ==> route[i] in net[route[i - 1]])
  }

  lemma {:induction false} RouteSeen(net: Network, origin: int, f: Flood, route: seq<int>)
    requires Spreads(net, origin, f) && f.inFlight == multiset{} && Route(net, route) && route[0] == origin && |route| >= 2
    ensures route[|route| - 1] in f.seen
    decreases |route|
  {
    var last := |route| - 1;
    assert route[last] in net[route[last - 1]];
    if last > 1 {
      RouteSeen(net, origin, f, route[..last]);
    }
  }

  lemma SeenApplied(net: Network, origin: int, f: Flood, r: int)
    requires Counted(net, origin, f) && r in f.seen
    ensures f.applied[r] == 1
  {
  }

  /**
   * If nothing is lost, then once nothing is in flight every router that the originator has a route to has applied
   * the id exactly once; the originator itself has applied it again if some route leads back.
   */
  lemma AllReached(net: Network, origin: int, hs: seq<Hop>, f: Flood, route: seq<int>)
    requires Wired(net) && Floods(net, origin, hs, f) && (forall h :: h in hs ==> h.Deliver?) && f.inFlight == multiset{}
    requires Route(net, route) && route[0] == origin && |route| >= 2
    ensures f.applied[route[|route| - 1]] == 1
  {
    hide Floods, Route, Spreads;
    FloodingEnds(net, origin, hs, f);
    SpreadsWithoutLoss(net, origin, hs, f);
    RouteSeen(net, origin, f, route);
    SeenApplied(net, origin, f, route[|route| - 1]);
  }

  // ---------------------------------------------------------------------------- the router

  class LsaRouter {
    const faceEntries: seq<int>
    var recentLsaIds: set<int>
    /** The ids its paths were updated for, in order. */
    var applied: seq<int>

    constructor (faceEntries: seq<int>)
      ensures this.faceEntries == faceEntries && recentLsaIds == {} && applied == []
    {
      this.faceEntries := faceEntries;
      recentLsaIds, applied := {}, [];
    }

    /** Relays an unknown id over all faces, that on which it came included, and applies it. */
    method OnReceiveLsa(lsaId: int) returns (sentTo: seq<int>)
      modifies this
      ensures recentLsaIds == old(recentLsaIds) + {lsaId}
      ensures lsaId in old(recentLsaIds) ==> sentTo == [] && applied == old(applied)
      ensures lsaId !in old(recentLsaIds) ==> sentTo == faceEntries && applied == old(applied) + [lsaId]
    {
      sentTo := [];
      if lsaId in recentLsaIds {
        return;
      } else {
        recentLsaIds := recentLsaIds + {lsaId};
      }
      for i := 0 to |faceEntries|
        invariant sentTo == faceEntries[..i] && recentLsaIds == old(recentLsaIds) + {lsaId} && applied == old(applied)
      {
        sentTo := sentTo + [faceEntries[i]];
      }
      applied := applied + [lsaId];
    }
  }

  /** What a router does on receiving a packet is what the step of the network says of it. */
  method DeliverTo(net: Network, f: Flood, router: LsaRouter, r: int, lsaId: int) returns (f': Flood)
    requires 0 <= r < |net| && r in f.inFlight && router.faceEntries == net[r] && (lsaId in router.recentLsaIds <==> r in f.seen)
    modifies router
    ensures f' == Hopped(net, f, Deliver(r)) && (lsaId in router.recentLsaIds <==> r in f'.seen)
    ensures |router.applied| - |old(router.applied)| == f'.applied[r] - f.applied[r]
  {
    var known := lsaId in router.recentLsaIds;
    var sentTo := router.OnReceiveLsa(lsaId);
    f' := f.(inFlight := f.inFlight - multiset{r} + Addressed(sentTo), sent := f.sent + |sentTo|);
    if !known {
      f' := f'.(seen := f.seen + {r}, applied := f.applied + multiset{r});
    }
  }
}