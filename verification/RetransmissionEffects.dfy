/**
 * What each message and each timer makes a router do, in plain terms: which packets go out, which batches are opened and
 * asked for, what is waited for.  What others promise is kept: a capsule that arrives is sent on, and an id that is
 * missing is asked for.
 */
module RetransmissionEffects {
  import opened Common
  import opened RetransmissionSpec
  import opened RetransmissionBudgets
  import opened RetransmissionLimits

  // ------------------------------------------------------------------------- what goes out

  /** There is somewhere to send a capsule: a sub-path in RSP state, a router downstream or an application. */
  ghost predicate HasWayOn(paths: Paths) {
    paths.downInRspState || paths.hasDown || paths.hasApp
  }

  /** The packet that carries a capsule on. */
  ghost function SentOn(e: Event): seq<Output>
    requires e.Capsule? || e.RetranS? || e.RetranM?
  {
    if HasWayOn(e.paths) then [Forward(e.dataId, NameAsked(e), e.paths.downInRspState)] else []
  }

  ghost function FirstRound(cfg: Config, s: RouterState, ids: set<int>, paths: Paths): seq<Output> {
    if cfg.numRetransRequests > 0 && paths.hasRetransPoint then [RequestM(s.curBatchID, ids)] else []
  }

  /** A batch of these ids is opened, and asked for at once if requests are configured and there is a path to ask over. */
  ghost function AskedFor(cfg: Config, s: RouterState, ids: set<int>, fromReport: bool, paths: Paths): seq<Output> {
    if ids == {} then [] else [Opened(s.curBatchID, fromReport, ids)] + FirstRound(cfg, s, ids, paths)
  }

  /** The batches, and their timers, once a batch of these ids was opened; nothing changes if there are none. */
  ghost predicate BatchAdded(cfg: Config, s: RouterState, s': RouterState, ids: set<int>, paths: Paths) {
    if ids == {} then s'.batches == s.batches && s'.batchTimers == s.batchTimers && s'.curBatchID == s.curBatchID
    else
      && s'.curBatchID == s.curBatchID + 1 && s'.batches == s.batches[s.curBatchID := ids]
      && s'.batchTimers == if cfg.numRetransRequests > 0 && paths.hasRetransPoint then s.batchTimers[s.curBatchID := cfg.numRetransRequests - 1] else s.batchTimers
  }

  ghost predicate SameBatches(s: RouterState, s': RouterState) {
    s'.batches == s.batches && s'.batchTimers == s.batchTimers && s'.curBatchID == s.curBatchID
  }

  /** What is left to upstream routers stays as it was. */
  ghost predicate SameWaits(s: RouterState, s': RouterState) {
    s'.waitRecords == s.waitRecords && s'.waitSets == s.waitSets && s'.waitTimers == s.waitTimers && s'.curWaitID == s.curWaitID
  }

  /** The set of ids waited for loses `gone`, and gains the first id after `id` that is neither received nor lost upstream. */
  ghost predicate WaitsOn(s: RouterState, s': RouterState, gone: set<int>, id: int) {
    exists next :: FirstFree(s'.lostFromPrev + s'.transmitted, Uint32(id + 1), next)
      && s'.waitNext == s.waitNext - gone + {next}
      && s'.nextTimers == s.nextTimers - gone + if next in s.waitNext - gone then {} else {next}
  }

  lemma Waiting(s: RouterState, id: int)
    requires SomeFree(s.lostFromPrev + s.transmitted)
    ensures WaitsOn(s, WaitForNext(s, ComputeNextDataId(s, id)), {}, id)
  {
    hide NextFree, FirstFree;
    var f :| 0 <= f <= UINT_MAX && f !in s.lostFromPrev + s.transmitted;
    NextFreeFirst(s.lostFromPrev + s.transmitted, Uint32(id + 1), f);
  }

  // ------------------------------------------------------------------------------- capsules

  /** The ids between the last one and this one that nobody has received, waits for or knows to be lost upstream. */
  ghost predicate IsGap(s: RouterState, id: int, gap: set<int>) {
    forall x :: x in gap <==> id !in s.lostFromPrev && Uint32(s.lastDataId + 1) <= x < id && x !in s.lostFromPrev && x !in s.waitNext && x !in s.transmitted
  }

  /** The first record that holds the id is dropped, and its set loses the id; the timer goes only if nothing is left. */
  ghost predicate LeavesWaits(s: RouterState, s': RouterState, id: int) {
    if forall k :: k in s.waitRecords && k in s.waitSets ==> id !in s.waitSets[k] then SameWaits(s, s')
    else exists i :: FirstWith(s, i, id) && LeavesRecord(s, s', i, id)
  }

  ghost predicate LeavesRecord(s: RouterState, s': RouterState, i: int, id: int)
    requires FirstWith(s, i, id)
  {
    var k := s.waitRecords[i];
    && s'.waitRecords == s.waitRecords[..i] + s.waitRecords[i + 1..] && s'.curWaitID == s.curWaitID
    && s'.waitSets == s.waitSets[k := s.waitSets[k] - {id}]
    && s'.waitTimers == if s.waitSets[k] == {id} then s.waitTimers - {k} else s.waitTimers
  }

  ghost predicate FirstWith(s: RouterState, i: int, id: int) {
    && 0 <= i < |s.waitRecords| && s.waitRecords[i] in s.waitSets && id in s.waitSets[s.waitRecords[i]]
    && forall j :: 0 <= j < i ==> s.waitRecords[j] !in s.waitSets || id !in s.waitSets[s.waitRecords[j]]
  }

  /** Everything that a new capsule changes. */
  ghost predicate CapsuleDone(s: RouterState, s': RouterState, id: int) {
    && s'.transmitted == s.transmitted + {id} && s'.lostFromPrev == s.lostFromPrev - {id} && s'.recentReportUIDs == s.recentReportUIDs
    && s'.lastDataId == (if id !in s.lostFromPrev && id > s.lastDataId then id else s.lastDataId)
    && (if id == s'.lastDataId then WaitsOn(s, s', {id}, id) else s'.waitNext == s.waitNext - {id} && s'.nextTimers == s.nextTimers - {id})
    && LeavesWaits(s, s', id)
  }

  lemma GapIs(s: RouterState, id: int)
    requires 0 <= id <= UINT_MAX
    ensures var gap := if id in s.lostFromPrev then {} else NewLost(s.(transmitted := s.transmitted + {id}), id);
            IsGap(s, id, gap) && forall g :: IsGap(s, id, g) ==> g == gap
  {
    var gap := if id in s.lostFromPrev then {} else NewLost(s.(transmitted := s.transmitted + {id}), id);
    forall g | IsGap(s, id, g) ensures g == gap {
      assert forall x :: x in g <==> x in gap;
    }
  }

  lemma Opening(cfg: Config, s: RouterState, ids: set<int>, fromReport: bool, paths: Paths)
    requires ids != {}
    ensures var r := OpenBatch(cfg, s, ids, fromReport, paths);
            && BatchAdded(cfg, s, r.s, ids, paths) && r.out == AskedFor(cfg, s, ids, fromReport, paths)
            && r.s == s.(curBatchID := r.s.curBatchID, batches := r.s.batches, batchTimers := r.s.batchTimers)
  {
  }

  lemma Accepting(cfg: Config, s: RouterState, id: int, paths: Paths, gap: set<int>)
    requires gap == if id in s.lostFromPrev then {} else NewLost(s, id)
    ensures var r := Accept(cfg, s, id, paths);
            && BatchAdded(cfg, s, r.s, gap, paths) && r.out == AskedFor(cfg, s, gap, false, paths)
            && r.s == s.(curBatchID := r.s.curBatchID, batches := r.s.batches, batchTimers := r.s.batchTimers, lostFromPrev := s.lostFromPrev - {id},
                         lastDataId := if id !in s.lostFromPrev && id > s.lastDataId then id else s.lastDataId)
  {
    hide OpenBatch, NewLost;
    if gap != {} {
      Opening(cfg, s, gap, false, paths);
    }
    if id !in s.lostFromPrev {
      assert s.lostFromPrev - {id} == s.lostFromPrev;
      if id <= Uint32(s.lastDataId + 1) {
        NoGap(s, id);
      }
    }
  }

  lemma NoGap(s: RouterState, id: int)
    requires id <= Uint32(s.lastDataId + 1)
    ensures NewLost(s, id) == {}
  {
  }

  lemma Cleaning(s: RouterState, id: int)
    ensures LeavesWaits(s, CleanWaits(s, id), id)
    ensures CleanWaits(s, id) == s.(waitRecords := CleanWaits(s, id).waitRecords, waitSets := CleanWaits(s, id).waitSets, waitTimers := CleanWaits(s, id).waitTimers)
  {
    var i := RecordWith(s.waitRecords, s.waitSets, id);
    if i < |s.waitRecords| {
      var k := s.waitRecords[i];
      assert FirstWith(s, i, id);
      assert k in s.waitRecords && k in s.waitSets && id in s.waitSets[k];
      assert s.waitSets[k] - {id} == {} <==> s.waitSets[k] == {id};
    }
  }

  /**
   * A capsule that is new is sent on, and exactly what is missing before it is put into a new batch and asked for; then
   * the next one is waited for.
   */
  lemma CapsuleEffect(cfg: Config, s: RouterState, id: int, paths: Paths, gap: set<int>)
    requires 0 <= id <= UINT_MAX && !cfg.retranDisabled && id !in s.transmitted && IsGap(s, id, gap)
    requires SomeFree(s.lostFromPrev + s.transmitted + {id})
    ensures var r := Step(cfg, s, Capsule(id, paths));
            && r.out == AskedFor(cfg, s, gap, false, paths) + SentOn(Capsule(id, paths))
            && BatchAdded(cfg, s, r.s, gap, paths) && CapsuleDone(s, r.s, id)
  {
    hide Accept, CleanWaits, ComputeNextDataId, NewLost, SomeFree, FirstRound, CapsuleDone, LeavesWaits, IsGap;
    GapIs(s, id);
    var s0 := s.(transmitted := s.transmitted + {id});
    Accepting(cfg, s0, id, paths, gap);
    var r := Accept(cfg, s0, id, paths);
    Cleaning(CleanWaitForNext(r.s, id), id);
    var s3 := CleanWaits(CleanWaitForNext(r.s, id), id);
    var s' := if id == s3.lastDataId then WaitForNext(s3, ComputeNextDataId(s3, id)) else s3;
    assert OnCapsule(cfg, s, id, paths) == Result(s', r.out + Deliver(id, id, paths));
    assert SameBatches(r.s, s');
    assert FirstRound(cfg, s0, gap, paths) == FirstRound(cfg, s, gap, paths) by { SameRound(cfg, s0, s, gap, paths); }
    SameAdded(cfg, s, r.s, s', gap, paths);
    CapsuleStates(s, r.s, s3, s', id);
  }

  lemma SameRound(cfg: Config, s: RouterState, s': RouterState, ids: set<int>, paths: Paths)
    requires s.curBatchID == s'.curBatchID
    ensures FirstRound(cfg, s, ids, paths) == FirstRound(cfg, s', ids, paths)
  {
  }

  lemma SameAdded(cfg: Config, s: RouterState, s1: RouterState, s': RouterState, ids: set<int>, paths: Paths)
    requires BatchAdded(cfg, s.(transmitted := s1.transmitted), s1, ids, paths) && SameBatches(s1, s')
    ensures BatchAdded(cfg, s, s', ids, paths)
  {
  }

  lemma CapsuleStates(s: RouterState, s1: RouterState, s3: RouterState, s': RouterState, id: int)
    requires SomeFree(s.lostFromPrev + s.transmitted + {id})
    requires s1 == s.(transmitted := s.transmitted + {id}, lostFromPrev := s.lostFromPrev - {id}, batches := s1.batches, batchTimers := s1.batchTimers,
                      curBatchID := s1.curBatchID, lastDataId := if id !in s.lostFromPrev && id > s.lastDataId then id else s.lastDataId)
    requires s3 == CleanWaitForNext(s1, id).(waitRecords := s3.waitRecords, waitSets := s3.waitSets, waitTimers := s3.waitTimers)
    requires LeavesWaits(CleanWaitForNext(s1, id), s3, id)
    requires s' == if id == s3.lastDataId then WaitForNext(s3, ComputeNextDataId(s3, id)) else s3
    ensures CapsuleDone(s, s', id)
  {
    hide FirstFree, SomeFree, LeavesWaits, ComputeNextDataId;
    SameLeaving(CleanWaitForNext(s1, id), s, s3, s', id);
    if id == s3.lastDataId {
      FewerTaken(s.lostFromPrev + s.transmitted + {id}, s3.lostFromPrev + s3.transmitted);
      Waiting(s3, id);
      WaitingFrom(s, s3, s', id);
    }
  }

  lemma WaitingFrom(s: RouterState, s3: RouterState, s': RouterState, id: int)
    requires WaitsOn(s3, s', {}, id) && s3.waitNext == s.waitNext - {id} && s3.nextTimers == s.nextTimers - {id}
    ensures WaitsOn(s, s', {id}, id)
  {
    hide FirstFree;
    var next :| FirstFree(s'.lostFromPrev + s'.transmitted, Uint32(id + 1), next) && s'.waitNext == s3.waitNext - {} + {next}
                && s'.nextTimers == s3.nextTimers - {} + if next in s3.waitNext - {} then {} else {next};
    assert s3.waitNext - {} == s.waitNext - {id};
  }

  lemma SameLeaving(t: RouterState, s: RouterState, t': RouterState, s': RouterState, id: int)
    requires LeavesWaits(t, t', id) && SameWaits(s, t) && SameWaits(t', s')
    ensures LeavesWaits(s, s', id)
  {
    if i :| FirstWith(t, i, id) && LeavesRecord(t, t', i, id) {
      assert FirstWith(s, i, id) && LeavesRecord(s, s', i, id);
    }
  }

  lemma FewerTaken(taken: set<int>, taken': set<int>)
    requires SomeFree(taken) && taken' <= taken
    ensures SomeFree(taken')
  {
  }

  /** A capsule that has been received before does nothing, whatever it comes as. */
  lemma KnownEffect(cfg: Config, s: RouterState, e: Event)
    requires (e.Capsule? && !cfg.retranDisabled) || e.RetranS? || e.RetranM?
    requires e.dataId in s.transmitted
    ensures Step(cfg, s, e) == Result(s, [])
  {
  }

  /** Without retransmission every capsule is sent on, and nothing is remembered. */
  lemma DisabledEffect(cfg: Config, s: RouterState, id: int, paths: Paths)
    requires cfg.retranDisabled
    ensures Step(cfg, s, Capsule(id, paths)) == Result(s, SentOn(Capsule(id, paths)))
  {
  }

  // -------------------------------------------------------------------------------- answers

  /** A new answer to a single request is sent on; what was asked for is no longer waited for, but what came, if it is something else, is. */
  lemma RetranSEffect(cfg: Config, s: RouterState, id: int, requestedId: int, paths: Paths)
    requires id !in s.transmitted && SomeFree(s.lostFromPrev + s.transmitted + {id})
    ensures var e := RetranS(id, requestedId, paths); var r := Step(cfg, s, e);
            && r.out == SentOn(e) && SameBatches(s, r.s) && SameWaits(s, r.s)
            && r.s.transmitted == s.transmitted + {id} && r.s.lostFromPrev == s.lostFromPrev && r.s.recentReportUIDs == s.recentReportUIDs
            && r.s.lastDataId == (if id > s.lastDataId then id else s.lastDataId)
            && if id > s.lastDataId then WaitsOn(s.(waitNext := s.waitNext + {id}), r.s, {requestedId}, id)
               else r.s.waitNext == s.waitNext + {id} - {requestedId} && r.s.nextTimers == s.nextTimers - {requestedId}
  {
    hide ComputeNextDataId, FirstFree, SomeFree, WaitsOn;
    if id > s.lastDataId {
      var s1 := CleanWaitForNext(s.(transmitted := s.transmitted + {id}, waitNext := s.waitNext + {id}), requestedId).(lastDataId := id);
      FewerTaken(s.lostFromPrev + s.transmitted + {id}, s1.lostFromPrev + s1.transmitted);
      Waiting(s1, id);
      WaitingMore(s.(waitNext := s.waitNext + {id}), s1, WaitForNext(s1, ComputeNextDataId(s1, id)), {requestedId}, id);
    }
  }

  lemma WaitingMore(s: RouterState, s1: RouterState, s': RouterState, gone: set<int>, id: int)
    requires WaitsOn(s1, s', {}, id) && s1.waitNext == s.waitNext - gone && s1.nextTimers == s.nextTimers - gone
    ensures WaitsOn(s, s', gone, id)
  {
    hide FirstFree;
    var next :| FirstFree(s'.lostFromPrev + s'.transmitted, Uint32(id + 1), next) && s'.waitNext == s1.waitNext - {} + {next}
                && s'.nextTimers == s1.nextTimers - {} + if next in s1.waitNext - {} then {} else {next};
    assert s1.waitNext - {} == s.waitNext - gone;
  }

  /** The batch an answer is for loses the id; a batch found empty goes, with its timer. */
  ghost predicate BatchAnswered(s: RouterState, s': RouterState, bri: nat, id: int) {
    && s'.curBatchID == s.curBatchID
    && if bri !in s.batches then s'.batches == s.batches && s'.batchTimers == s.batchTimers
       else if s.batches[bri] == {} then s'.batches == s.batches - {bri} && s'.batchTimers == s.batchTimers - {bri}
       else s'.batches == s.batches[bri := s.batches[bri] - {id}] && s'.batchTimers == s.batchTimers
  }

  lemma Answering(s: RouterState, bri: nat, id: int, s0: RouterState, s': RouterState)
    requires s0 == CleanBatch(s.(transmitted := s.transmitted + {id}), bri, id)
    ensures s0 == s.(transmitted := s.transmitted + {id}, batches := s0.batches, batchTimers := s0.batchTimers)
    ensures SameBatches(s0, s') ==> BatchAnswered(s, s', bri, id)
  {
  }

  lemma RetranMEffect(cfg: Config, s: RouterState, bri: nat, id: int, requestedId: int, paths: Paths)
    requires id !in s.transmitted && SomeFree(s.lostFromPrev + s.transmitted + {id})
    ensures var e := RetranM(bri, id, requestedId, paths); var r := Step(cfg, s, e);
            && r.out == SentOn(e) && BatchAnswered(s, r.s, bri, id) && SameWaits(s, r.s)
            && r.s.transmitted == s.transmitted + {id} && r.s.lostFromPrev == s.lostFromPrev && r.s.recentReportUIDs == s.recentReportUIDs
            && r.s.lastDataId == (if id > s.lastDataId then id else s.lastDataId)
            && if id > s.lastDataId then WaitsOn(s, r.s, {}, id) else r.s.waitNext == s.waitNext && r.s.nextTimers == s.nextTimers
  {
    hide ComputeNextDataId, FirstFree, SomeFree, WaitsOn, CleanBatch, BatchAnswered;
    var s0 := CleanBatch(s.(transmitted := s.transmitted + {id}), bri, id);
    Answering(s, bri, id, s0, OnRetranM(s, bri, id, requestedId, paths).s);
    if id > s.lastDataId {
      var s1 := CleanBatch(s.(transmitted := s.transmitted + {id}), bri, id).(lastDataId := id);
      FewerTaken(s.lostFromPrev + s.transmitted + {id}, s1.lostFromPrev + s1.transmitted);
      Waiting(s1, id);
      WaitingMore(s, s1, WaitForNext(s1, ComputeNextDataId(s1, id)), {}, id);
    }
  }

  /** A reply that the capsule is missing upstream makes the router wait for it, unless it has come or is waited for. */
  lemma RetranSMissEffect(cfg: Config, s: RouterState, id: int)
    ensures Step(cfg, s, RetranSMiss(id)) ==
            if id in s.waitNext || id in s.transmitted then Result(s, [])
            else Result(s.(waitNext := s.waitNext + {id}, nextTimers := s.nextTimers + {id}), [])
  {
  }

  // -------------------------------------------------------------------------------- reports

  /** Ids that no upstream router was known to have lost are left to the one that reports them, with a timer, if its timeout is known. */
  ghost predicate LeftUpstream(s: RouterState, s': RouterState, ids: set<int>, timeoutKnown: bool) {
    if ids <= s.lostFromPrev || !timeoutKnown then SameWaits(s, s')
    else
      && s'.curWaitID == s.curWaitID + 1 && s'.waitRecords == s.waitRecords + [s.curWaitID]
      && s'.waitSets == s.waitSets[s.curWaitID := ids - s.lostFromPrev] && s'.waitTimers == s.waitTimers + {s.curWaitID}
  }

  /** What upstream routers have lost leaves all batches; a batch with nothing left goes, with its timer, and no other. */
  ghost predicate BatchesYield(s: RouterState, s': RouterState, lost: set<int>) {
    && s'.curBatchID == s.curBatchID
    && (forall b :: b in s'.batches <==> b in s.batches && !(s.batches[b] <= lost))
    && (forall b :: b in s'.batches ==> s'.batches[b] == s.batches[b] - lost)
    && (forall b :: b in s'.batchTimers <==> b in s.batchTimers && (b in s.batches ==> b in s'.batches))
    && (forall b :: b in s'.batchTimers ==> s'.batchTimers[b] == s.batchTimers[b])
  }

  /** The largest of the ids, if there is one. */
  ghost predicate IsLargest(ids: set<int>, m: int) {
    m in ids && forall x :: x in ids ==> x <= m
  }

  /** If something waited for is lost upstream, the first id after the largest of them that is not is waited for instead. */
  ghost predicate WaitsYield(s: RouterState, s': RouterState, lost: set<int>) {
    if lost * s.waitNext == {} then s'.waitNext == s.waitNext && s'.nextTimers == s.nextTimers - lost
    else exists m :: IsLargest(lost * s.waitNext, m) && WaitsOn(s, s', lost, m)
  }

  lemma ReportEffect(cfg: Config, s: RouterState, uid: int, ids: set<int>, timeoutKnown: bool)
    requires uid !in s.recentReportUIDs && ids != {} && SomeFree(s.lostFromPrev + s.transmitted + ids)
    ensures var r := Step(cfg, s, Report(uid, ids, timeoutKnown)); var lost := s.lostFromPrev + ids;
            && r.out == [] && r.s.lostFromPrev == lost && r.s.transmitted == s.transmitted && r.s.lastDataId == s.lastDataId
            && r.s.recentReportUIDs == s.recentReportUIDs + {uid}
            && LeftUpstream(s, r.s, ids, timeoutKnown) && BatchesYield(s, r.s, lost) && WaitsYield(s, r.s, lost)
  {
    hide ComputeNextDataId, FirstFree, SomeFree, WaitsOn, Deferred, MaxOf, Yield, BatchesYield, LeftUpstream;
    var s1 := s.(recentReportUIDs := s.recentReportUIDs + {uid});
    var s2 := Deferred(s1, ids, timeoutKnown);
    Deferring(s1, ids, timeoutKnown);
    var s3 := s2.(lostFromPrev := s2.lostFromPrev + ids);
    var lost, s4 := s3.lostFromPrev, Yield(s3);
    Yielding(s3);
    var r := OnReport(s, uid, ids, timeoutKnown);
    var waiting := lost * s3.waitNext;
    assert r == if waiting == {} then s4 else WaitForNext(s4, ComputeNextDataId(s4, MaxOf(waiting)));
    SameYield(s3, s, s4, r, lost);
    SameLeft(s1, s2, s, r, ids, timeoutKnown);
    if waiting != {} {
      FewerTaken(s.lostFromPrev + s.transmitted + ids, s4.lostFromPrev + s4.transmitted);
      Waiting(s4, MaxOf(waiting));
      WaitingMore(s, s4, r, lost, MaxOf(waiting));
      assert IsLargest(waiting, MaxOf(waiting));
    } else {
      Apart(lost, s.waitNext);
    }
  }

  lemma Deferring(s: RouterState, ids: set<int>, timeoutKnown: bool)
    ensures var s' := Deferred(s, ids, timeoutKnown);
            && LeftUpstream(s, s', ids, timeoutKnown)
            && s' == s.(curWaitID := s'.curWaitID, waitRecords := s'.waitRecords, waitSets := s'.waitSets, waitTimers := s'.waitTimers)
  {
    NothingLeft(ids, s.lostFromPrev);
  }

  lemma Yielding(s: RouterState)
    ensures var s' := Yield(s);
            && BatchesYield(s, s', s.lostFromPrev)
            && s' == s.(waitNext := s.waitNext - s.lostFromPrev, nextTimers := s.nextTimers - s.lostFromPrev, batches := s'.batches, batchTimers := s'.batchTimers)
  {
    forall b | b in s.batches ensures s.batches[b] - s.lostFromPrev == {} <==> s.batches[b] <= s.lostFromPrev {
      NothingLeft(s.batches[b], s.lostFromPrev);
    }
  }

  lemma NothingLeft(a: set<int>, b: set<int>)
    ensures a - b == {} <==> a <= b
  {
    forall x | x in a && x !in b ensures x in a - b {
    }
  }

  lemma Apart(a: set<int>, b: set<int>)
    requires a * b == {}
    ensures b - a == b
  {
    forall x | x in b ensures x !in a {
      assert x in a ==> x in a * b;
    }
  }

  lemma SameYield(s: RouterState, t: RouterState, s': RouterState, t': RouterState, lost: set<int>)
    requires BatchesYield(s, s', lost) && SameBatches(s, t) && SameBatches(s', t')
    ensures BatchesYield(t, t', lost)
  {
  }

  lemma SameLeft(s: RouterState, s': RouterState, t: RouterState, t': RouterState, ids: set<int>, timeoutKnown: bool)
    requires LeftUpstream(s, s', ids, timeoutKnown) && SameWaits(s, t) && SameWaits(s', t') && s.lostFromPrev == t.lostFromPrev
    ensures LeftUpstream(t, t', ids, timeoutKnown)
  {
  }

  /** A report seen before changes nothing, and an empty one is only remembered. */
  lemma NoReportEffect(cfg: Config, s: RouterState, uid: int, ids: set<int>, timeoutKnown: bool)
    requires uid in s.recentReportUIDs || ids == {}
    ensures Step(cfg, s, Report(uid, ids, timeoutKnown)) == Result(s.(recentReportUIDs := s.recentReportUIDs + {uid}), [])
  {
    assert uid in s.recentReportUIDs ==> s.recentReportUIDs + {uid} == s.recentReportUIDs;
  }

  // --------------------------------------------------------------------------------- timers

  lemma NextTimerEffect(cfg: Config, s: RouterState, id: int)
    requires id in s.nextTimers
    ensures Step(cfg, s, NextTimer(id)) == Result(s.(nextTimers := s.nextTimers - {id}, waitNext := s.waitNext + {id}), [])
  {
  }

  /** What is left of a batch is asked for once more, as long as requests are left and there is a path to ask over. */
  lemma BatchTimerEffect(cfg: Config, s: RouterState, rbi: nat, paths: Paths)
    requires rbi in s.batchTimers
    ensures var r := Step(cfg, s, BatchTimer(rbi, paths)); var rest := s.batchTimers[rbi];
            if rest > 0 && paths.hasRetransPoint && rbi in s.batches && s.batches[rbi] != {}
            then r == Result(s.(batchTimers := s.batchTimers[rbi := rest - 1]), [RequestM(rbi, s.batches[rbi])])
            else && r.out == [] && r.s == s.(batchTimers := s.batchTimers - {rbi}, batches := r.s.batches)
                 && r.s.batches == if rest > 0 && rbi in s.batches && s.batches[rbi] == {} then s.batches - {rbi} else s.batches
  {
  }

  /**
   * When the time left to an upstream router is over, exactly those of its ids that have not come are put into a new batch
   * and asked for; if all have come, nothing is.
   */
  lemma WaitTimerEffect(cfg: Config, s: RouterState, k: nat, paths: Paths, ids: set<int>)
    requires k in s.waitTimers && k in s.waitSets && forall x :: x in ids <==> x in s.waitSets[k] && x !in s.transmitted
    ensures var r := Step(cfg, s, WaitTimer(k, paths));
            && r.out == AskedFor(cfg, s, ids, true, paths) && BatchAdded(cfg, s, r.s, ids, paths)
            && r.s == s.(curBatchID := r.s.curBatchID, batches := r.s.batches, batchTimers := r.s.batchTimers,
                         waitTimers := s.waitTimers - {k}, waitRecords := r.s.waitRecords)
            && RecordDropped(s.waitRecords, r.s.waitRecords, Uint32(k))
  {
    hide OpenBatch, AskedFor, BatchAdded, RecordDropped, WithoutEvent;
    var s1 := s.(waitTimers := s.waitTimers - {k}, waitRecords := WithoutEvent(s.waitRecords, Uint32(k)));
    assert ids == s.waitSets[k] - s.transmitted by {
      forall x ensures x in ids <==> x in s.waitSets[k] - s.transmitted {
      }
    }
    Dropping(s.waitRecords, Uint32(k));
    if ids != {} {
      Opening(cfg, s1, ids, true, paths);
    }
    SameAsking(cfg, s1, s, OnWaitTimer(cfg, s, k, paths).s, ids, paths);
  }

  lemma SameAsking(cfg: Config, s: RouterState, t: RouterState, s': RouterState, ids: set<int>, paths: Paths)
    requires SameBatches(s, t)
    ensures AskedFor(cfg, s, ids, true, paths) == AskedFor(cfg, t, ids, true, paths)
    ensures BatchAdded(cfg, s, s', ids, paths) <==> BatchAdded(cfg, t, s', ids, paths)
    ensures ids == {} ==> AskedFor(cfg, t, ids, true, paths) == [] && BatchAdded(cfg, s, s, ids, paths)
  {
  }

  /** The first record of this event id is gone, the others stay in their order. */
  ghost predicate RecordDropped(records: seq<nat>, records': seq<nat>, eventID: int) {
    if forall i :: 0 <= i < |records| ==> Uint32(records[i]) != eventID then records' == records
    else exists i :: 0 <= i < |records| && IsFirst(records, i, eventID) && records' == records[..i] + records[i + 1..]
  }

  ghost predicate IsFirst(records: seq<nat>, i: int, eventID: int) {
    0 <= i < |records| && Uint32(records[i]) == eventID && forall j :: 0 <= j < i ==> Uint32(records[j]) != eventID
  }

  lemma {:induction false} Dropping(records: seq<nat>, eventID: int)
    ensures RecordDropped(records, WithoutEvent(records, eventID), eventID)
  {
    if records == [] {
    } else if Uint32(records[0]) == eventID {
      assert IsFirst(records, 0, eventID);
      assert records[..0] + records[1..] == records[1..];
    } else {
      hide RecordDropped;
      Dropping(records[1..], eventID);
      DroppingLater(records, WithoutEvent(records[1..], eventID), eventID);
    }
  }

  lemma DroppingLater(records: seq<nat>, rest': seq<nat>, eventID: int)
    requires records != [] && Uint32(records[0]) != eventID && RecordDropped(records[1..], rest', eventID)
    ensures RecordDropped(records, [records[0]] + rest', eventID)
  {
    hide IsFirst;
    var rest := records[1..];
    if forall i :: 0 <= i < |rest| ==> Uint32(rest[i]) != eventID {
      forall i | 0 <= i < |records| ensures Uint32(records[i]) != eventID {
        assert i > 0 ==> records[i] == rest[i - 1];
      }
    } else {
      var i :| 0 <= i < |rest| && IsFirst(rest, i, eventID) && rest' == rest[..i] + rest[i + 1..];
      FirstLater(records, i, eventID);
      assert [records[0]] + (rest[..i] + rest[i + 1..]) == records[..i + 1] + records[i + 2..];
    }
  }

  lemma FirstLater(records: seq<nat>, i: int, eventID: int)
    requires records != [] && Uint32(records[0]) != eventID && IsFirst(records[1..], i, eventID)
    ensures IsFirst(records, i + 1, eventID) && 0 <= i + 1 < |records| && Uint32(records[i + 1]) == eventID
  {
    var rest := records[1..];
    assert forall j :: 0 < j < |records| ==> records[j] == rest[j - 1];
  }
}
