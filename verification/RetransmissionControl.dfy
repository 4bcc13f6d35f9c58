/** The state a router keeps for one prefix, and the handlers that change it. */
module RetransmissionControl {
  import opened Common
  import opened FibonacciForest
  import opened RetransmissionSpec

  // ------------------------------------------------------------- the ids already handled

  /**
   * A queue of ids with a set for looking them up and a map of the times they were added.  `n` is set to the
   * length of the queue and then counted up and down with its contents, so that their difference never changes.
   */
  class LltcDataIdQueue {
    var q: seq<int>
    var ids: set<int>
    var dataIdAddTimeMap: map<int, int>
    var n: nat

    ghost predicate Valid()
      reads this
    {
      NoDup(q) && (forall x :: x in ids <==> x in q) && dataIdAddTimeMap.Keys == ids && |q| <= n
    }

    /** The length the queue was given. */
    ghost function Len(): nat
      requires |q| <= n
      reads this
    {
      n - |q|
    }

    constructor (n: nat)
      ensures Valid() && q == [] && ids == {} && Len() == n
    {
      q, ids, dataIdAddTimeMap := [], {}, map[];
      this.n := n;
    }

    predicate Contains(x: int)
      reads this
    {
      x in ids
    }

    function Size(): nat
      reads this
    {
      n
    }

    /** The time an id was added, 0 if it is not there. */
    function GetDataIdAddTime(dataId: int): (t: int)
      reads this
      ensures dataId !in dataIdAddTimeMap ==> t == 0
    {
      if dataId !in dataIdAddTimeMap then 0 else dataIdAddTimeMap[dataId]
    }

    /**
     * In a queue of positive length ids are never forgotten.  In one of length 0 the oldest id would give way, but
     * there never is one: the first push takes the front of the empty queue, which is not defined.
     */
    method Push(x: int, time: int)
      requires Valid() && (|q| == n && x !in ids ==> q != [])
      modifies this
      ensures Valid() && Len() == old(Len())
      ensures x in old(ids) ==> q == old(q) && ids == old(ids) && dataIdAddTimeMap == old(dataIdAddTimeMap)
      ensures x !in old(ids) && old(Len()) > 0 ==>
                q == old(q) + [x] && ids == old(ids) + {x} && dataIdAddTimeMap == old(dataIdAddTimeMap)[x := time]
      ensures x !in old(ids) && old(Len()) == 0 ==>
                q == old(q)[1..] + [x] && ids == old(ids) - {old(q)[0]} + {x} && dataIdAddTimeMap == (old(dataIdAddTimeMap) - {old(q)[0]})[x := time]
    {
      if x in ids {
        return;
      }
      if |q| == n {
        var oldest := Pop();
      }
      q := q + [x];
      ids := ids + {x};
      dataIdAddTimeMap := dataIdAddTimeMap[x := time];
      n := n + 1;
    }

    method Pop() returns (x: int)
      requires Valid() && q != []
      modifies this
      ensures Valid() && Len() == old(Len()) && old(q) == [x] + q && ids == old(ids) - {x} && dataIdAddTimeMap == old(dataIdAddTimeMap) - {x}
      ensures n == old(n) - 1
    {
      x := q[0];
      PopFront(q);
      q := q[1..];
      ids := ids - {x};
      dataIdAddTimeMap := dataIdAddTimeMap - {x};
      n := n - 1;
    }
  }

  lemma PopFront(q: seq<int>)
    requires NoDup(q) && q != []
    ensures NoDup(q[1..]) && q[0] !in q[1..] && forall x :: x in q <==> x == q[0] || x in q[1..]
  {
  }

  // ------------------------------------------------------------------- loops over values

  method FindNextFree(lost: set<int>, transmitted: LltcDataIdQueue, curDataId: int) returns (next: int)
    requires SomeFree(lost + transmitted.ids)
    ensures next == NextFree(lost + transmitted.ids, Uint32(curDataId + 1))
    ensures FirstFree(lost + transmitted.ids, Uint32(curDataId + 1), next)
  {
    ghost var taken := lost + transmitted.ids;
    ghost var f :| 0 <= f <= UINT_MAX && f !in taken;
    ghost var rest := taken;
    next := Uint32(curDataId + 1);
    while next in lost || transmitted.Contains(next)
      invariant 0 <= next <= UINT_MAX && rest <= taken
      invariant NextFree(taken, Uint32(curDataId + 1)) == NextFree(rest, next)
      invariant forall x :: x in taken && x !in rest ==> Ahead(x, f) > Ahead(next, f)
      decreases Ahead(next, f)
    {
      AheadStep(next, f);
      rest := rest - {next};
      next := Uint32(next + 1);
    }
    assert next !in rest;
    NextFreeFirst(taken, Uint32(curDataId + 1), f);
  }

  method FindNewLost(first: int, curDataId: int, lost: set<int>, waitNext: set<int>, transmitted: LltcDataIdQueue) returns (newLost: set<int>)
    ensures newLost == set id | first <= id < curDataId && id !in lost && id !in waitNext && id !in transmitted.ids
  {
    newLost := {};
    var lostDataId := first;
    while lostDataId < curDataId
      invariant first <= lostDataId && (lostDataId <= curDataId || lostDataId == first)
      invariant newLost == set id | first <= id < lostDataId && id !in lost && id !in waitNext && id !in transmitted.ids
      decreases curDataId - lostDataId
    {
      if lostDataId !in lost {
        if !(lostDataId in waitNext || transmitted.Contains(lostDataId)) {
          newLost := newLost + {lostDataId};
        }
      }
      lostDataId := lostDataId + 1;
    }
  }

  method FindRecord(records: seq<nat>, sets: map<nat, set<int>>, id: int) returns (i: nat)
    ensures i == RecordWith(records, sets, id)
  {
    i := 0;
    while i < |records| && !(records[i] in sets && id in sets[records[i]])
      invariant i <= |records| && RecordWith(records, sets, id) == i + RecordWith(records[i..], sets, id)
    {
      assert records[i..][1..] == records[i + 1..];
      i := i + 1;
    }
  }

  method RemoveEvent(records: seq<nat>, eventID: int) returns (r: seq<nat>)
    ensures r == WithoutEvent(records, eventID)
  {
    hide WithoutEvent;
    var i := 0;
    WithoutWhole(records, eventID);
    while i < |records| && Uint32(records[i]) != eventID
      invariant 0 <= i <= |records| && WithoutEvent(records, eventID) == records[..i] + WithoutEvent(records[i..], eventID)
    {
      WithoutStep(records, eventID, i);
      i := i + 1;
    }
    if i < |records| {
      WithoutStep(records, eventID, i);
      r := records[..i] + records[i + 1..];
    } else {
      WithoutStep(records, eventID, i);
      r := records;
    }
  }

  lemma WithoutWhole(records: seq<nat>, eventID: int)
    ensures WithoutEvent(records, eventID) == records[..0] + WithoutEvent(records[0..], eventID)
  {
  }

  lemma WithoutStep(records: seq<nat>, eventID: int, i: nat)
    requires i <= |records|
    ensures i == |records| ==> records[..i] + WithoutEvent(records[i..], eventID) == records
    ensures i < |records| ==>
              records[..i] + WithoutEvent(records[i..], eventID) ==
              if Uint32(records[i]) == eventID then records[..i] + records[i + 1..] else records[..i + 1] + WithoutEvent(records[i + 1..], eventID)
  {
    if i < |records| {
      assert records[i..][1..] == records[i + 1..];
      assert records[..i + 1] == records[..i] + [records[i]];
    }
  }

  method NotTransmitted(ids: set<int>, transmitted: LltcDataIdQueue) returns (r: set<int>)
    ensures r == ids - transmitted.ids
  {
    r := {};
    var rest := ids;
    while rest != {}
      invariant rest <= ids && r == (ids - rest) - transmitted.ids
      decreases |rest|
    {
      Member(rest);
      var dataID :| dataID in rest;
      rest := rest - {dataID};
      if !transmitted.Contains(dataID) {
        r := r + {dataID};
      }
    }
  }

  ghost predicate KeepsTimers(batches: map<nat, set<int>>, batches': map<nat, set<int>>, timers: map<nat, nat>, timers': map<nat, nat>) {
    && (forall b :: b in timers' <==> b in timers && (b in batches ==> b in batches'))
    && (forall b :: b in timers' ==> b in timers && timers'[b] == timers[b])
  }

  /** Takes one id out of every batch, and drops the batches that are empty. */
  method CleanRetranMEvents(batches: map<nat, set<int>>, timers: map<nat, nat>, dataId: int) returns (batches': map<nat, set<int>>, timers': map<nat, nat>)
    ensures batches' == Pruned(batches, {dataId}) && KeepsTimers(batches, batches', timers, timers')
  {
    hide *;
    batches', timers' := batches, timers;
    var rest := batches.Keys;
    NothingPruned(batches, timers, dataId);
    while rest != {}
      invariant PartlyPruned(batches, dataId, rest, batches') && KeepsTimers(batches, batches', timers, timers')
      decreases |rest|
    {
      Member(rest);
      var b :| b in rest;
      PartlyPrunedStep(batches, timers, dataId, rest, b, batches', timers');
      rest := rest - {b};
      batches', timers' := CleanOne(batches', timers', b, dataId);
    }
    PrunedWhen(batches, dataId, batches');
  }

  /** All batches but those in `rest` have been looked at. */
  ghost predicate PartlyPruned(batches: map<nat, set<int>>, dataId: int, rest: set<nat>, batches': map<nat, set<int>>) {
    && (forall b :: b in rest ==> b in batches && b in batches' && batches'[b] == batches[b])
    && (forall b :: b in batches' ==> b in batches && (b in rest || (batches'[b] == batches[b] - {dataId} && batches'[b] != {})))
    && (forall b :: b in batches && b !in batches' ==> batches[b] - {dataId} == {})
  }

  lemma NothingPruned(batches: map<nat, set<int>>, timers: map<nat, nat>, dataId: int)
    ensures PartlyPruned(batches, dataId, batches.Keys, batches) && KeepsTimers(batches, batches, timers, timers)
  {
  }

  lemma PartlyPrunedStep(batches: map<nat, set<int>>, timers: map<nat, nat>, dataId: int, rest: set<nat>, b: nat, batches': map<nat, set<int>>, timers': map<nat, nat>)
    requires PartlyPruned(batches, dataId, rest, batches') && KeepsTimers(batches, batches', timers, timers') && b in rest
    ensures b in batches'
    ensures var empty := batches'[b] - {dataId} == {};
            && PartlyPruned(batches, dataId, rest - {b}, if empty then batches' - {b} else batches'[b := batches'[b] - {dataId}])
            && KeepsTimers(batches, if empty then batches' - {b} else batches'[b := batches'[b] - {dataId}], timers, if empty then timers' - {b} else timers')
  {
  }

  lemma PrunedWhen(batches: map<nat, set<int>>, dataId: int, r: map<nat, set<int>>)
    requires PartlyPruned(batches, dataId, {}, r)
    ensures r == Pruned(batches, {dataId})
  {
  }

  method CleanOne(batches: map<nat, set<int>>, timers: map<nat, nat>, b: nat, dataId: int) returns (batches': map<nat, set<int>>, timers': map<nat, nat>)
    requires b in batches
    ensures batches' == if batches[b] - {dataId} == {} then batches - {b} else batches[b := batches[b] - {dataId}]
    ensures timers' == if batches[b] - {dataId} == {} then timers - {b} else timers
  {
    batches', timers' := batches, timers;
    var ids := batches[b];
    if dataId in ids {
      ids := ids - {dataId};
      batches' := batches'[b := ids];
    }
    assert ids == batches[b] - {dataId};
    if |ids| == 0 {
      batches', timers' := batches' - {b}, timers' - {b};
    }
  }

  lemma PrunedTwice(batches: map<nat, set<int>>, done: set<int>, id: int)
    ensures Pruned(Pruned(batches, done), {id}) == Pruned(batches, done + {id})
  {
    forall b | b in batches ensures (batches[b] - done) - {id} == batches[b] - (done + {id}) {
    }
  }

  lemma KeepsTrans(b0: map<nat, set<int>>, b1: map<nat, set<int>>, b2: map<nat, set<int>>, t0: map<nat, nat>, t1: map<nat, nat>, t2: map<nat, nat>)
    requires KeepsTimers(b0, b1, t0, t1) && KeepsTimers(b1, b2, t1, t2) && b2.Keys <= b1.Keys <= b0.Keys
    ensures KeepsTimers(b0, b2, t0, t2)
  {
  }

  /** Stops waiting and asking for every id in `lost`; `max` is the largest one that was waited for, or -1. */
  method CleanAll(lost: set<int>, waitNext: set<int>, nextTimers: set<int>, batches: map<nat, set<int>>, timers: map<nat, nat>)
    returns (waitNext': set<int>, nextTimers': set<int>, batches': map<nat, set<int>>, timers': map<nat, nat>, max: int)
    requires lost != {} && forall id :: id in lost ==> id >= 0
    ensures waitNext' == waitNext - lost && nextTimers' == nextTimers - waitNext * lost
    ensures batches' == Pruned(batches, lost) && KeepsTimers(batches, batches', timers, timers')
    ensures max == if lost * waitNext == {} then -1 else MaxOf(lost * waitNext)
  {
    hide Pruned, KeepsTimers;
    waitNext', nextTimers', batches', timers', max := waitNext, nextTimers, batches, timers, -1;
    ghost var done: set<int> := {};
    var rest := lost;
    assert KeepsTimers(batches, batches', timers, timers') by { KeepsSame(batches, timers); }
    while rest != {}
      invariant done == lost - rest && rest <= lost
      invariant waitNext' == waitNext - done && nextTimers' == nextTimers - waitNext * done
      invariant done == {} ==> batches' == batches && timers' == timers
      invariant done != {} ==> batches' == Pruned(batches, done)
      invariant KeepsTimers(batches, batches', timers, timers')
      invariant max == -1 || max in done * waitNext
      invariant forall x :: x in done && x in waitNext ==> x <= max
      decreases |rest|
    {
      Member(rest);
      var lostDataId :| lostDataId in rest;
      assert lostDataId in lost && lostDataId !in done;
      rest := rest - {lostDataId};
      if lostDataId in waitNext' {
        waitNext', nextTimers' := waitNext' - {lostDataId}, nextTimers' - {lostDataId};
        if lostDataId > max {
          max := lostDataId;
        }
      }
      ghost var batches0, timers0 := batches', timers';
      batches', timers' := CleanRetranMEvents(batches', timers', lostDataId);
      KeepsPruned(batches, batches0, done, lostDataId, timers, timers0, timers');
      done := done + {lostDataId};
    }
    assert done == lost;
    MaxOrNone(lost, waitNext, max);
  }

  lemma MaxOrNone(lost: set<int>, waitNext: set<int>, max: int)
    requires forall id :: id in lost ==> id >= 0
    requires max == -1 || max in lost * waitNext
    requires forall x :: x in lost && x in waitNext ==> x <= max
    ensures max == if lost * waitNext == {} then -1 else MaxOf(lost * waitNext)
  {
    var w := lost * waitNext;
    if w != {} {
      Member(w);
      var x :| x in w;
      assert 0 <= x <= max;
      assert MaxOf(w) in w;
    }
  }

  lemma KeepsSame(batches: map<nat, set<int>>, timers: map<nat, nat>)
    ensures KeepsTimers(batches, batches, timers, timers)
  {
  }

  lemma KeepsPruned(b0: map<nat, set<int>>, b1: map<nat, set<int>>, done: set<int>, id: int, t0: map<nat, nat>, t1: map<nat, nat>, t2: map<nat, nat>)
    requires KeepsTimers(b0, b1, t0, t1) && b1 == (if done == {} then b0 else Pruned(b0, done)) && KeepsTimers(b1, Pruned(b1, {id}), t1, t2)
    ensures Pruned(b1, {id}) == Pruned(b0, done + {id}) && KeepsTimers(b0, Pruned(b0, done + {id}), t0, t2)
  {
    hide Pruned, KeepsTimers;
    if done == {} {
      assert done + {id} == {id};
    } else {
      PrunedTwice(b0, done, id);
    }
    assert Pruned(b0, done + {id}).Keys <= b1.Keys <= b0.Keys;
    KeepsTrans(b0, b1, Pruned(b0, done + {id}), t0, t1, t2);
  }

  // ------------------------------------------------------------------------- the handlers

  class CapsuleForwardingStates {
    const cfg: Config
    const transmittedDataIds: LltcDataIdQueue
    var lastDataId: int
    var lostDataIdsFromPrevRouters: set<int>
    /** The keys of the map of this name; those whose timer is scheduled are kept beside it. */
    var waitForNextDataEvents: set<int>
    var nextTimers: set<int>
    /** What is left of each batch, and the number of requests its scheduled timer has left. */
    var retransInBatchEvents: map<nat, set<int>>
    var batchTimers: map<nat, nat>
    var curRetransInBatchID: nat
    /** The list of this name; the sets it shares with timers, and the timers scheduled. */
    var waitForRetransInBatchEvents: seq<nat>
    var waitSets: map<nat, set<int>>
    var waitTimers: set<nat>
    var curWaitForRetransInBatchEventID: nat
    var recentDataRetransReportUIDs: set<int>

    ghost function State(): RouterState
      reads this, transmittedDataIds
    {
      RouterState(lastDataId, transmittedDataIds.ids, lostDataIdsFromPrevRouters, waitForNextDataEvents, nextTimers, retransInBatchEvents, batchTimers,
                  curRetransInBatchID, waitForRetransInBatchEvents, waitSets, waitTimers, curWaitForRetransInBatchEventID, recentDataRetransReportUIDs)
    }

    ghost predicate Valid()
      reads this, transmittedDataIds
    {
      && transmittedDataIds.Valid() && transmittedDataIds.Len() > 0 && nextTimers <= waitForNextDataEvents
      && forall id :: id in lostDataIdsFromPrevRouters ==> id >= 0
    }

    constructor (cfg: Config, queueSize: nat)
      requires queueSize > 0
      ensures Valid() && State() == INITIAL && fresh(transmittedDataIds) && this.cfg == cfg
    {
      this.cfg := cfg;
      transmittedDataIds := new LltcDataIdQueue(queueSize);
      lastDataId, lostDataIdsFromPrevRouters, waitForNextDataEvents, nextTimers := 0, {}, {}, {};
      retransInBatchEvents, batchTimers, curRetransInBatchID := map[], map[], 0;
      waitForRetransInBatchEvents, waitSets, waitTimers, curWaitForRetransInBatchEventID := [], map[], {}, 0;
      recentDataRetransReportUIDs := {};
    }

    method CheckAndRecordRetransmittedDataId(retransDataId: int, now: int) returns (isNewData: bool)
      requires Valid()
      modifies transmittedDataIds
      ensures Valid() && isNewData == (retransDataId !in old(State()).transmitted)
      ensures State() == old(State()).(transmitted := old(State()).transmitted + {retransDataId})
    {
      if transmittedDataIds.Contains(retransDataId) {
        assert transmittedDataIds.ids == transmittedDataIds.ids + {retransDataId};
        return false;
      }
      transmittedDataIds.Push(retransDataId, now);
      isNewData := true;
    }

    method WaitForNextCapsule(nextDataId: int)
      requires Valid()
      modifies this`waitForNextDataEvents, this`nextTimers
      ensures Valid() && State() == WaitForNext(old(State()), nextDataId)
    {
      if nextDataId in waitForNextDataEvents {
        return;
      }
      nextTimers := nextTimers + {nextDataId};
      waitForNextDataEvents := waitForNextDataEvents + {nextDataId};
    }

    method WaitForNextAfter(dataId: int)
      requires Valid() && SomeFree(lostDataIdsFromPrevRouters + transmittedDataIds.ids)
      modifies this`waitForNextDataEvents, this`nextTimers
      ensures Valid() && State() == WaitForNext(old(State()), ComputeNextDataId(old(State()), dataId))
    {
      hide NextFree, SomeFree;
      var nextDataId := FindNextFree(lostDataIdsFromPrevRouters, transmittedDataIds, dataId);
      WaitForNextCapsule(nextDataId);
    }

    method CleanWaitForNextEvent(dataId: int) returns (inWaitingForNextData: bool)
      requires Valid()
      modifies this`waitForNextDataEvents, this`nextTimers
      ensures Valid() && State() == CleanWaitForNext(old(State()), dataId)
      ensures inWaitingForNextData == (dataId in old(waitForNextDataEvents))
    {
      inWaitingForNextData := false;
      if dataId in waitForNextDataEvents {
        nextTimers := nextTimers - {dataId};
        waitForNextDataEvents := waitForNextDataEvents - {dataId};
        inWaitingForNextData := true;
      } else {
        assert waitForNextDataEvents - {dataId} == waitForNextDataEvents && nextTimers - {dataId} == nextTimers;
      }
    }

    method CleanWaitForRequestMEvents(dataId: int)
      requires Valid()
      modifies this`waitForRetransInBatchEvents, this`waitSets, this`waitTimers
      ensures Valid() && State() == CleanWaits(old(State()), dataId)
    {
      var i := FindRecord(waitForRetransInBatchEvents, waitSets, dataId);
      if i < |waitForRetransInBatchEvents| {
        var k := waitForRetransInBatchEvents[i];
        var dataIDs := waitSets[k] - {dataId};
        waitSets := waitSets[k := dataIDs];
        if dataIDs == {} {
          waitTimers := waitTimers - {k};
        }
        waitForRetransInBatchEvents := waitForRetransInBatchEvents[..i] + waitForRetransInBatchEvents[i + 1..];
      }
    }

    method BroadcastRequestMAndWaitForRetranMRecursive(rbi: nat, restRetransRequests: nat, paths: Paths) returns (out: seq<Output>)
      requires Valid()
      modifies this`retransInBatchEvents, this`batchTimers
      ensures Valid() && Result(State(), out) == Round(old(State()), rbi, restRetransRequests, paths)
    {
      out := [];
      if restRetransRequests == 0 { return; }
      if rbi !in retransInBatchEvents {
        retransInBatchEvents := retransInBatchEvents[rbi := {}];
      }
      if |retransInBatchEvents[rbi]| == 0 {
        assert retransInBatchEvents[rbi] == {};
        retransInBatchEvents := retransInBatchEvents - {rbi};
        assert retransInBatchEvents == old(retransInBatchEvents) - {rbi};
        return;
      }
      if !paths.hasRetransPoint { return; }
      out := [RequestM(rbi, retransInBatchEvents[rbi])];
      batchTimers := batchTimers[rbi := restRetransRequests - 1];
    }

    method BroadcastRequestMAndWaitForRetranM(lostDataIds: set<int>, fromReport: bool, paths: Paths) returns (out: seq<Output>)
      requires Valid()
      modifies this`retransInBatchEvents, this`batchTimers, this`curRetransInBatchID
      ensures Valid() && Result(State(), out) == OpenBatch(cfg, old(State()), lostDataIds, fromReport, paths)
    {
      hide Round;
      var rbi := curRetransInBatchID;
      curRetransInBatchID := rbi + 1;
      retransInBatchEvents := retransInBatchEvents[rbi := lostDataIds];
      out := BroadcastRequestMAndWaitForRetranMRecursive(rbi, cfg.numRetransRequests, paths);
      out := [Opened(rbi, fromReport, lostDataIds)] + out;
    }

    method CleanRetranMEventsOf(bri: nat, retransDataId: int)
      requires Valid()
      modifies this`retransInBatchEvents, this`batchTimers
      ensures Valid() && State() == CleanBatch(old(State()), bri, retransDataId)
    {
      if bri in retransInBatchEvents {
        if |retransInBatchEvents[bri]| == 0 {
          batchTimers := batchTimers - {bri};
          retransInBatchEvents := retransInBatchEvents - {bri};
        } else {
          retransInBatchEvents := retransInBatchEvents[bri := retransInBatchEvents[bri] - {retransDataId}];
        }
      }
    }

    method DiscoverLostCapsules(curDataId: int, paths: Paths) returns (out: seq<Output>)
      requires Valid()
      modifies this`retransInBatchEvents, this`batchTimers, this`curRetransInBatchID
      ensures Valid() && Result(State(), out) == Discover(cfg, old(State()), curDataId, paths)
    {
      hide OpenBatch;
      var newLostDataIDs := FindNewLost(Uint32(lastDataId + 1), curDataId, lostDataIdsFromPrevRouters, waitForNextDataEvents, transmittedDataIds);
      assert newLostDataIDs == NewLost(State(), curDataId);
      out := [];
      if |newLostDataIDs| > 0 {
        out := BroadcastRequestMAndWaitForRetranM(newLostDataIDs, false, paths);
      }
    }

    method OnReceiveCapsule(dataId: int, now: int, paths: Paths) returns (out: seq<Output>)
      requires Valid() && (paths.downInRspState ==> paths.hasDown)
      requires SomeFree(lostDataIdsFromPrevRouters + transmittedDataIds.ids + {dataId})
      modifies this, transmittedDataIds
      ensures Valid() && Result(State(), out) == OnCapsule(cfg, old(State()), dataId, paths)
    {
      hide Discover, CleanWaits, CleanWaitForNext, WaitForNext, ComputeNextDataId, Deliver, SomeFree;
      if cfg.retranDisabled {
        return Deliver(dataId, dataId, paths);
      }
      var isNewData := CheckAndRecordRetransmittedDataId(dataId, now);
      if !isNewData {
        assert State().transmitted == old(State()).transmitted;
        return [];
      }
      ghost var s1 := State();
      out := [];
      if dataId in lostDataIdsFromPrevRouters {
        lostDataIdsFromPrevRouters := lostDataIdsFromPrevRouters - {dataId};
      } else {
        if dataId > Uint32(lastDataId + 1) {
          out := DiscoverLostCapsules(dataId, paths);
        }
        DiscoverSame(cfg, s1, dataId, paths);
        if dataId > lastDataId {
          lastDataId := dataId;
        }
      }
      assert Result(State(), out) == Accept(cfg, s1, dataId, paths);
      var waiting := CleanWaitForNextEvent(dataId);
      CleanWaitForRequestMEvents(dataId);
      out := out + Deliver(dataId, dataId, paths);
      if dataId == lastDataId {
        StillFree(old(lostDataIdsFromPrevRouters) + old(transmittedDataIds.ids) + {dataId}, lostDataIdsFromPrevRouters + transmittedDataIds.ids);
        WaitForNextAfter(lastDataId);
      }
    }

    method OnReceiveRetranSMiss(dataId: int)
      requires Valid()
      modifies this`waitForNextDataEvents, this`nextTimers
      ensures Valid() && State() == OnRetranSMiss(old(State()), dataId)
    {
      if dataId in waitForNextDataEvents || transmittedDataIds.Contains(dataId) {
        return;
      }
      nextTimers := nextTimers + {dataId};
      waitForNextDataEvents := waitForNextDataEvents + {dataId};
    }

    method RaiseLastDataId(dataId: int)
      requires Valid() && SomeFree(lostDataIdsFromPrevRouters + transmittedDataIds.ids)
      modifies this`lastDataId, this`waitForNextDataEvents, this`nextTimers
      ensures Valid() && State() == Raised(old(State()), dataId)
    {
      hide WaitForNext, ComputeNextDataId, SomeFree;
      if dataId > lastDataId {
        lastDataId := dataId;
        WaitForNextAfter(lastDataId);
      }
    }

    method OnReceiveRetranS(dataId: int, requestedDataId: int, now: int, paths: Paths) returns (out: seq<Output>)
      requires Valid() && (paths.downInRspState ==> paths.hasDown)
      requires SomeFree(lostDataIdsFromPrevRouters + transmittedDataIds.ids + {dataId})
      modifies this, transmittedDataIds
      ensures Valid() && Result(State(), out) == OnRetranS(old(State()), dataId, requestedDataId, paths)
    {
      hide CleanWaitForNext, Raised, Deliver, SomeFree;
      var isNewData := CheckAndRecordRetransmittedDataId(dataId, now);
      if !isNewData {
        assert State().transmitted == old(State()).transmitted;
        return [];
      }
      waitForNextDataEvents := waitForNextDataEvents + {dataId};
      var waiting := CleanWaitForNextEvent(requestedDataId);
      StillFree(old(lostDataIdsFromPrevRouters) + old(transmittedDataIds.ids) + {dataId}, State().lostFromPrev + State().transmitted);
      out := Deliver(dataId, requestedDataId, paths);
      RaiseLastDataId(dataId);
    }

    method OnReceiveRetranM(bri: nat, dataId: int, requestedDataId: int, now: int, paths: Paths) returns (out: seq<Output>)
      requires Valid() && (paths.downInRspState ==> paths.hasDown)
      requires SomeFree(lostDataIdsFromPrevRouters + transmittedDataIds.ids + {dataId})
      modifies this, transmittedDataIds
      ensures Valid() && Result(State(), out) == OnRetranM(old(State()), bri, dataId, requestedDataId, paths)
    {
      hide CleanBatch, Raised, Deliver, SomeFree;
      var isNewData := CheckAndRecordRetransmittedDataId(dataId, now);
      if !isNewData {
        assert State().transmitted == old(State()).transmitted;
        return [];
      }
      CleanRetranMEventsOf(bri, dataId);
      StillFree(old(lostDataIdsFromPrevRouters) + old(transmittedDataIds.ids) + {dataId}, State().lostFromPrev + State().transmitted);
      out := Deliver(dataId, requestedDataId, paths);
      RaiseLastDataId(dataId);
    }

    /** Leaves ids not yet known to be asked for upstream to the upstream router for a while. */
    method DeferTo(dataIds: set<int>, timeoutKnown: bool)
      requires Valid() && forall id :: id in dataIds ==> id >= 0
      modifies this`curWaitForRetransInBatchEventID, this`waitSets, this`waitTimers, this`waitForRetransInBatchEvents, this`lostDataIdsFromPrevRouters
      ensures Valid() && State() == Deferred(old(State()), dataIds, timeoutKnown).(lostFromPrev := old(lostDataIdsFromPrevRouters) + dataIds)
    {
      var newRetransDataIds := dataIds - lostDataIdsFromPrevRouters;
      if |newRetransDataIds| > 0 && timeoutKnown {
        var k := curWaitForRetransInBatchEventID;
        curWaitForRetransInBatchEventID := k + 1;
        waitSets := waitSets[k := newRetransDataIds];
        waitTimers := waitTimers + {k};
        waitForRetransInBatchEvents := waitForRetransInBatchEvents + [k];
      }
      lostDataIdsFromPrevRouters := lostDataIdsFromPrevRouters + dataIds;
    }

    /** Stops waiting and asking for everything known as lost upstream. */
    method YieldAll() returns (maxDataIdInWaiting: int)
      requires Valid() && lostDataIdsFromPrevRouters != {}
      modifies this`waitForNextDataEvents, this`nextTimers, this`retransInBatchEvents, this`batchTimers
      ensures Valid() && State() == Yield(old(State()))
      ensures var waiting := old(lostDataIdsFromPrevRouters * waitForNextDataEvents); maxDataIdInWaiting == if waiting == {} then -1 else MaxOf(waiting)
    {
      hide Pruned, MaxOf, KeepsTimers, Yield;
      ghost var s3 := State();
      var waitNext, timers, batches, rounds;
      waitNext, timers, batches, rounds, maxDataIdInWaiting :=
        CleanAll(lostDataIdsFromPrevRouters, waitForNextDataEvents, nextTimers, retransInBatchEvents, batchTimers);
      YieldState(s3, waitNext, timers, batches, rounds);
      waitForNextDataEvents, nextTimers, retransInBatchEvents, batchTimers := waitNext, timers, batches, rounds;
    }

    method OnReceiveReport(reportUID: int, dataIds: set<int>, timeoutKnown: bool)
      requires Valid() && SomeFree(lostDataIdsFromPrevRouters + transmittedDataIds.ids + dataIds) && forall id :: id in dataIds ==> id >= 0
      modifies this
      ensures Valid() && State() == OnReport(old(State()), reportUID, dataIds, timeoutKnown)
    {
      hide WaitForNext, ComputeNextDataId, SomeFree, MaxOf, Yield, Deferred;
      if reportUID in recentDataRetransReportUIDs {
        return;
      }
      recentDataRetransReportUIDs := recentDataRetransReportUIDs + {reportUID};
      if |dataIds| > 0 {
        ghost var s1 := State();
        DeferTo(dataIds, timeoutKnown);
        DeferredSame(s1, dataIds, timeoutKnown);
        ghost var s3 := State();
        var maxDataIdInWaiting := YieldAll();
        YieldSame(s3);
        MaxNatural(s3.lostFromPrev * s3.waitNext);
        if maxDataIdInWaiting != -1 {
          StillFree(old(lostDataIdsFromPrevRouters) + old(transmittedDataIds.ids) + dataIds, lostDataIdsFromPrevRouters + transmittedDataIds.ids);
          WaitForNextAfter(maxDataIdInWaiting);
        }
      }
    }

    method WaitForNextCapsuleDelayedTask(lostDataId: int)
      requires Valid() && lostDataId in nextTimers
      modifies this`waitForNextDataEvents, this`nextTimers
      ensures Valid() && State() == OnNextTimer(old(State()), lostDataId)
    {
      nextTimers := nextTimers - {lostDataId};
      waitForNextDataEvents := waitForNextDataEvents + {lostDataId};
    }

    method BatchTimerFires(rbi: nat, paths: Paths) returns (out: seq<Output>)
      requires Valid() && rbi in batchTimers
      modifies this`retransInBatchEvents, this`batchTimers
      ensures Valid() && Result(State(), out) == OnBatchTimer(old(State()), rbi, paths)
    {
      hide Round;
      var rest := batchTimers[rbi];
      batchTimers := batchTimers - {rbi};
      out := BroadcastRequestMAndWaitForRetranMRecursive(rbi, rest, paths);
    }

    method WaitToRequestM(k: nat, paths: Paths) returns (out: seq<Output>)
      requires Valid() && k in waitTimers && k in waitSets
      modifies this`waitTimers, this`waitForRetransInBatchEvents, this`retransInBatchEvents, this`batchTimers, this`curRetransInBatchID
      ensures Valid() && Result(State(), out) == OnWaitTimer(cfg, old(State()), k, paths)
    {
      hide OpenBatch;
      waitTimers := waitTimers - {k};
      var records := RemoveEvent(waitForRetransInBatchEvents, Uint32(k));
      waitForRetransInBatchEvents := records;
      var dataIDs := NotTransmitted(waitSets[k], transmittedDataIds);
      out := [];
      if |dataIDs| == 0 { return; }
      out := BroadcastRequestMAndWaitForRetranM(dataIDs, true, paths);
    }
  }

  lemma StillFree(taken: set<int>, taken': set<int>)
    requires SomeFree(taken) && taken' <= taken
    ensures SomeFree(taken')
  {
  }

  lemma DeferredSame(s: RouterState, ids: set<int>, timeoutKnown: bool)
    ensures Deferred(s, ids, timeoutKnown).lostFromPrev == s.lostFromPrev && Deferred(s, ids, timeoutKnown).transmitted == s.transmitted
  {
  }

  lemma YieldSame(s: RouterState)
    ensures Yield(s).lostFromPrev == s.lostFromPrev && Yield(s).transmitted == s.transmitted
  {
  }

  lemma MaxNatural(s: set<int>)
    requires forall id :: id in s ==> id >= 0
    ensures s != {} ==> MaxOf(s) >= 0
  {
  }

  lemma DiscoverSame(cfg: Config, s: RouterState, id: int, paths: Paths)
    ensures Discover(cfg, s, id, paths).s.lastDataId == s.lastDataId && Discover(cfg, s, id, paths).s.lostFromPrev == s.lostFromPrev
  {
  }

  lemma YieldState(s: RouterState, waitNext: set<int>, nextTimers: set<int>, batches: map<nat, set<int>>, timers: map<nat, nat>)
    requires s.nextTimers <= s.waitNext && waitNext == s.waitNext - s.lostFromPrev && nextTimers == s.nextTimers - s.waitNext * s.lostFromPrev
    requires batches == Pruned(s.batches, s.lostFromPrev) && KeepsTimers(s.batches, batches, s.batchTimers, timers)
    ensures Yield(s) == s.(waitNext := waitNext, nextTimers := nextTimers, batches := batches, batchTimers := timers)
  {
    assert nextTimers == s.nextTimers - s.lostFromPrev;
    assert timers == map b | b in s.batchTimers && (b in s.batches ==> b in batches) :: s.batchTimers[b];
  }
}
