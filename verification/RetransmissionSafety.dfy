/** What holds in every state a router can come to, whatever arrives and whichever timers fire. */
module RetransmissionSafety {
  import opened Common
  import opened RetransmissionSpec

  // --------------------------------------------------------------------------- the invariant

  /** No id is in two batches. */
  ghost predicate Apart(batches: map<nat, set<int>>) {
    forall id, r1, r2 {:trigger id in batches[r1], id in batches[r2]} ::
      r1 in batches && r2 in batches && id in batches[r1] && id in batches[r2] ==> r1 == r2
  }

  /** An id in a batch that has not been received is not ahead of the last one, or an upstream router asks for it. */
  ghost predicate Behind(batches: map<nat, set<int>>, transmitted: set<int>, lost: set<int>, last: int) {
    forall id, r {:trigger id in batches[r]} :: r in batches && id in batches[r] ==> id in transmitted || id in lost || id <= last
  }

  /** An id left to an upstream router and not received is known as lost there, and is in no batch here. */
  ghost predicate LeftAlone(waitTimers: set<nat>, waitSets: map<nat, set<int>>, transmitted: set<int>, lost: set<int>, batches: map<nat, set<int>>) {
    forall id, k {:trigger id in waitSets[k]} :: k in waitTimers && k in waitSets && id in waitSets[k] ==>
      id in transmitted || (id in lost && forall r {:trigger batches[r]} :: r in batches ==> id !in batches[r])
  }

  /** An id left to an upstream router and not received is left to it once. */
  ghost predicate LeftOnce(waitTimers: set<nat>, waitSets: map<nat, set<int>>, transmitted: set<int>) {
    forall id, k1, k2 {:trigger id in waitSets[k1], id in waitSets[k2]} ::
      k1 in waitTimers && k2 in waitTimers && k1 in waitSets && k2 in waitSets && id in waitSets[k1] && id in waitSets[k2] ==>
      k1 == k2 || id in transmitted
  }

  /** Numbers not yet given out are not in use. */
  ghost predicate Numbered(s: RouterState) {
    && (forall r {:trigger s.batches[r]} :: r in s.batches ==> r < s.curBatchID)
    && (forall r :: r in s.batchTimers ==> r in s.batches)
    && (forall k :: k in s.waitTimers ==> k in s.waitSets)
    && (forall k {:trigger s.waitSets[k]} :: k in s.waitSets ==> k < s.curWaitID)
  }

  /** What holds of every state, whatever the ids packets carry; that batches are apart is not part of it. */
  ghost predicate Safe(s: RouterState) {
    && Behind(s.batches, s.transmitted, s.lostFromPrev, s.lastDataId)
    && LeftAlone(s.waitTimers, s.waitSets, s.transmitted, s.lostFromPrev, s.batches) && LeftOnce(s.waitTimers, s.waitSets, s.transmitted)
    && Numbered(s) && 0 <= s.lastDataId <= UINT_MAX
  }

  // ------------------------------------------------- parts of steps that other parts build on

  /** What waiting for one capsule, and timers for it, do not touch. */
  ghost predicate SameButNext(s: RouterState, s': RouterState) {
    s' == s.(waitNext := s'.waitNext, nextTimers := s'.nextTimers)
  }

  lemma SafeSameButNext(s: RouterState, s': RouterState)
    requires Safe(s) && SameButNext(s, s')
    ensures Safe(s')
  {
  }

  lemma WaitForNextSame(s: RouterState, id: int)
    ensures SameButNext(s, WaitForNext(s, id)) && SameButNext(s, CleanWaitForNext(s, id))
  {
  }

  /** Raising the last id. */
  lemma SafeRaisedTo(s: RouterState, id: int)
    requires Safe(s) && s.lastDataId <= id <= UINT_MAX
    ensures Safe(s.(lastDataId := id))
  {
  }

  lemma SafeRaised(s: RouterState, id: int)
    requires Safe(s) && id <= UINT_MAX
    ensures Safe(Raised(s, id))
  {
    hide Safe, WaitForNext, ComputeNextDataId;
    if id > s.lastDataId {
      SafeRaisedTo(s, id);
      var s' := s.(lastDataId := id);
      WaitForNextSame(s', ComputeNextDataId(s', id));
      SafeSameButNext(s', Raised(s, id));
    }
  }

  /** Receiving an id. */
  lemma SafeReceived(s: RouterState, id: int)
    requires Safe(s)
    ensures Safe(s.(transmitted := s.transmitted + {id}))
    ensures Safe(s.(transmitted := s.transmitted + {id}, lostFromPrev := s.lostFromPrev - {id}))
  {
  }

  lemma SafeCleanBatch(s: RouterState, bri: nat, dataId: int)
    requires Safe(s)
    ensures Safe(CleanBatch(s, bri, dataId))
  {
  }

  lemma SafeCleanWaits(s: RouterState, id: int)
    requires Safe(s)
    ensures Safe(CleanWaits(s, id))
  {
  }

  /** Giving up what upstream routers ask for, and more. */
  lemma SafeCleanBatches(s: RouterState, lost: set<int>)
    requires Numbered(s)
    ensures Numbered(CleanBatches(s, lost))
    ensures forall id, r {:trigger id in CleanBatches(s, lost).batches[r]} ::
              r in CleanBatches(s, lost).batches && id in CleanBatches(s, lost).batches[r] ==> r in s.batches && id in s.batches[r] && id !in lost
  {
  }

  // ---------------------------------------------------------------------------- a new batch

  /** Ids that may form a new batch: not left alone, and behind. */
  ghost predicate Unclaimed(s: RouterState, ids: set<int>, last: int) {
    && (forall id, k {:trigger id in s.waitSets[k]} :: k in s.waitTimers && k in s.waitSets && id in s.waitSets[k] && id in ids ==> id in s.transmitted)
    && (forall id :: id in ids ==> id in s.transmitted || id in s.lostFromPrev || id <= last)
  }

  lemma SafeRound(s: RouterState, rbi: nat, rest: nat, paths: Paths)
    requires Safe(s) && rbi !in s.batchTimers
    ensures Safe(Round(s, rbi, rest, paths).s)
  {
  }

  /** Opening a batch, once the last id is raised to `last`. */
  lemma SafeOpenBatch(cfg: Config, s: RouterState, ids: set<int>, fromReport: bool, paths: Paths, last: int)
    requires Safe(s) && Unclaimed(s, ids, last) && s.lastDataId <= last <= UINT_MAX
    ensures Safe(OpenBatch(cfg, s, ids, fromReport, paths).s.(lastDataId := last))
  {
    hide LeftOnce, Round;
    var rbi := s.curBatchID;
    var s1 := s.(curBatchID := rbi + 1, batches := s.batches[rbi := ids], lastDataId := last);
    assert Safe(s1);
    RoundLast(s.(curBatchID := rbi + 1, batches := s.batches[rbi := ids]), rbi, cfg.numRetransRequests, paths, last);
    SafeRound(s1, rbi, cfg.numRetransRequests, paths);
  }

  lemma RoundLast(s: RouterState, rbi: nat, rest: nat, paths: Paths, last: int)
    ensures Round(s.(lastDataId := last), rbi, rest, paths).s == Round(s, rbi, rest, paths).s.(lastDataId := last)
  {
  }

  // ------------------------------------------------------------------------------ handlers

  lemma NewLostUnclaimed(s: RouterState, id: int)
    requires Safe(s) && id <= UINT_MAX
    ensures Unclaimed(s, NewLost(s, id), if id > s.lastDataId then id else s.lastDataId)
  {
  }

  lemma SafeAccept(cfg: Config, s: RouterState, id: int, paths: Paths)
    requires Safe(s) && 0 <= id <= UINT_MAX && id in s.transmitted
    ensures Safe(Accept(cfg, s, id, paths).s)
  {
    hide Behind, LeftAlone, LeftOnce, Numbered, Unclaimed, NewLost, OpenBatch;
    var last := if id > s.lastDataId then id else s.lastDataId;
    if id in s.lostFromPrev {
      SafeReceived(s, id);
      assert s.transmitted + {id} == s.transmitted;
    } else if NewLost(s, id) == {} || id <= Uint32(s.lastDataId + 1) {
      SafeRaisedTo(s, last);
      assert s.(lastDataId := s.lastDataId) == s;
    } else {
      NewLostUnclaimed(s, id);
      SafeOpenBatch(cfg, s, NewLost(s, id), false, paths, last);
      OpenBatchLast(cfg, s, NewLost(s, id), false, paths);
      var r := OpenBatch(cfg, s, NewLost(s, id), false, paths);
      assert r.s.(lastDataId := r.s.lastDataId) == r.s;
    }
  }

  lemma SafeCapsule(cfg: Config, s: RouterState, id: int, paths: Paths)
    requires Safe(s) && 0 <= id <= UINT_MAX
    ensures Safe(OnCapsule(cfg, s, id, paths).s)
  {
    hide Safe, Accept, CleanWaits, CleanWaitForNext, WaitForNext, ComputeNextDataId, SameButNext, Deliver;
    if !cfg.retranDisabled && id !in s.transmitted {
      var s1 := s.(transmitted := s.transmitted + {id});
      SafeReceived(s, id);
      SafeAccept(cfg, s1, id, paths);
      var s2 := Accept(cfg, s1, id, paths).s;
      WaitForNextSame(s2, id);
      SafeSameButNext(s2, CleanWaitForNext(s2, id));
      var s3 := CleanWaits(CleanWaitForNext(s2, id), id);
      SafeCleanWaits(CleanWaitForNext(s2, id), id);
      WaitForNextSame(s3, ComputeNextDataId(s3, id));
      SafeSameButNext(s3, WaitForNext(s3, ComputeNextDataId(s3, id)));
    }
  }

  lemma SafeRetranS(s: RouterState, id: int, requestedId: int, paths: Paths)
    requires Safe(s) && id <= UINT_MAX
    ensures Safe(OnRetranS(s, id, requestedId, paths).s)
  {
    hide Safe, Raised, Deliver;
    if id !in s.transmitted {
      var s0 := s.(transmitted := s.transmitted + {id});
      SafeReceived(s, id);
      SafeSameButNext(s0, CleanWaitForNext(s0.(waitNext := s.waitNext + {id}), requestedId));
      SafeRaised(CleanWaitForNext(s0.(waitNext := s.waitNext + {id}), requestedId), id);
    }
  }

  lemma SafeRetranM(s: RouterState, bri: nat, id: int, requestedId: int, paths: Paths)
    requires Safe(s) && id <= UINT_MAX
    ensures Safe(OnRetranM(s, bri, id, requestedId, paths).s)
  {
    hide Safe, Raised, Deliver, CleanBatch;
    if id !in s.transmitted {
      SafeReceived(s, id);
      SafeCleanBatch(s.(transmitted := s.transmitted + {id}), bri, id);
      SafeRaised(CleanBatch(s.(transmitted := s.transmitted + {id}), bri, id), id);
    }
  }

  /** The state between learning what upstream routers ask for and giving it up here. */
  lemma SafeYield(s: RouterState, ids: set<int>, timeoutKnown: bool)
    requires Safe(s)
    ensures var s2 := Deferred(s, ids, timeoutKnown); Safe(Yield(s2.(lostFromPrev := s2.lostFromPrev + ids)))
  {
    hide LeftAlone, LeftOnce, CleanBatches, Behind;
    var s2 := Deferred(s, ids, timeoutKnown);
    var s3 := s2.(lostFromPrev := s2.lostFromPrev + ids);
    var lost := s3.lostFromPrev;
    var s4 := CleanBatches(s3.(waitNext := s3.waitNext - lost, nextTimers := s3.nextTimers - lost), lost);
    SafeCleanBatches(s3.(waitNext := s3.waitNext - lost, nextTimers := s3.nextTimers - lost), lost);
    CleanBatchesSame(s3.(waitNext := s3.waitNext - lost, nextTimers := s3.nextTimers - lost), lost);
    YieldLeft(s, ids, timeoutKnown, s4.batches);
    YieldBehind(s, s4.batches, lost);
  }

  lemma CleanBatchesSame(s: RouterState, lost: set<int>)
    ensures CleanBatches(s, lost) == s.(batches := CleanBatches(s, lost).batches, batchTimers := CleanBatches(s, lost).batchTimers)
  {
  }

  lemma YieldLeft(s: RouterState, ids: set<int>, timeoutKnown: bool, batches: map<nat, set<int>>)
    requires Safe(s)
    requires forall id, r {:trigger id in batches[r]} :: r in batches && id in batches[r] ==>
               r in s.batches && id in s.batches[r] && id !in s.lostFromPrev + ids
    ensures var s2 := Deferred(s, ids, timeoutKnown);
            LeftAlone(s2.waitTimers, s2.waitSets, s.transmitted, s.lostFromPrev + ids, batches) && LeftOnce(s2.waitTimers, s2.waitSets, s.transmitted)
  {
  }

  lemma YieldBehind(s: RouterState, batches: map<nat, set<int>>, lost: set<int>)
    requires Safe(s) && s.lostFromPrev <= lost
    requires forall id, r {:trigger id in batches[r]} :: r in batches && id in batches[r] ==> r in s.batches && id in s.batches[r]
    ensures Behind(batches, s.transmitted, lost, s.lastDataId)
  {
  }

  lemma SafeReport(s: RouterState, uid: int, ids: set<int>, timeoutKnown: bool)
    requires Safe(s)
    ensures Safe(OnReport(s, uid, ids, timeoutKnown))
  {
    hide Behind, LeftAlone, LeftOnce, WaitForNext, ComputeNextDataId, Yield, Deferred, SameButNext, MaxOf;
    var s1 := s.(recentReportUIDs := s.recentReportUIDs + {uid});
    assert Safe(s1);
    hide Safe;
    SafeYield(s1, ids, timeoutKnown);
    var s2 := Deferred(s1, ids, timeoutKnown);
    var s3 := s2.(lostFromPrev := s2.lostFromPrev + ids);
    var s4 := Yield(s3);
    var waiting := s3.lostFromPrev * s3.waitNext;
    if waiting != {} {
      WaitForNextSame(s4, ComputeNextDataId(s4, MaxOf(waiting)));
      SafeSameButNext(s4, WaitForNext(s4, ComputeNextDataId(s4, MaxOf(waiting))));
    }
  }

  lemma SafeBatchTimer(s: RouterState, rbi: nat, paths: Paths)
    requires Safe(s) && rbi in s.batchTimers
    ensures Safe(OnBatchTimer(s, rbi, paths).s)
  {
    hide Behind, LeftAlone, LeftOnce, Round;
    SafeRound(s.(batchTimers := s.batchTimers - {rbi}), rbi, s.batchTimers[rbi], paths);
  }

  lemma SafeWaitTimer(cfg: Config, s: RouterState, k: nat, paths: Paths)
    requires Safe(s) && k in s.waitTimers && k in s.waitSets
    ensures Safe(OnWaitTimer(cfg, s, k, paths).s)
  {
    hide Behind, OpenBatch, WithoutEvent;
    var s1 := s.(waitTimers := s.waitTimers - {k}, waitRecords := WithoutEvent(s.waitRecords, Uint32(k)));
    var ids := s.waitSets[k] - s.transmitted;
    assert Safe(s1);
    if ids != {} {
      assert Unclaimed(s1, ids, s1.lastDataId);
      SafeOpenBatch(cfg, s1, ids, true, paths, s1.lastDataId);
      OpenBatchLast(cfg, s1, ids, true, paths);
    }
  }

  lemma OpenBatchLast(cfg: Config, s: RouterState, ids: set<int>, fromReport: bool, paths: Paths)
    ensures OpenBatch(cfg, s, ids, fromReport, paths).s.lastDataId == s.lastDataId
  {
  }

  lemma NextOnly(s: RouterState, id: int)
    ensures SameButNext(s, OnRetranSMiss(s, id)) && SameButNext(s, OnNextTimer(s, id))
  {
  }

  lemma SafeStep(cfg: Config, s: RouterState, e: Event)
    requires Safe(s) && Enabled(s, e) && Carries(e)
    ensures Safe(Step(cfg, s, e).s)
  {
    hide Safe, OnCapsule, OnRetranSMiss, OnRetranS, OnRetranM, OnReport, OnNextTimer, OnBatchTimer, OnWaitTimer;
    match e
    case Capsule(id, paths) => SafeCapsule(cfg, s, id, paths);
    case RetranSMiss(id) =>
      NextOnly(s, id);
      SafeSameButNext(s, OnRetranSMiss(s, id));
    case RetranS(id, requestedId, paths) => SafeRetranS(s, id, requestedId, paths);
    case RetranM(bri, id, requestedId, paths) => SafeRetranM(s, bri, id, requestedId, paths);
    case Report(uid, ids, timeoutKnown) => SafeReport(s, uid, ids, timeoutKnown);
    case NextTimer(id) =>
      NextOnly(s, id);
      SafeSameButNext(s, OnNextTimer(s, id));
    case BatchTimer(rbi, paths) => SafeBatchTimer(s, rbi, paths);
    case WaitTimer(k, paths) => SafeWaitTimer(cfg, s, k, paths);
  }

  lemma {:induction false} SafeRuns(cfg: Config, es: seq<Event>, r: Result)
    requires Leads(cfg, es, r) && forall e :: e in es ==> Carries(e)
    ensures Safe(r.s)
  {
    hide Safe, Step;
    if es == [] {
      assert Safe(INITIAL) by { SafeInitial(); }
    } else {
      var e := es[|es| - 1];
      var r0 :| Leads(cfg, es[..|es| - 1], r0) && Enabled(r0.s, e) && r == Result(Step(cfg, r0.s, e).s, r0.out + Step(cfg, r0.s, e).out);
      SafeRuns(cfg, es[..|es| - 1], r0);
      SafeStep(cfg, r0.s, e);
    }
  }

  lemma SafeInitial()
    ensures Safe(INITIAL)
  {
  }

  // ------------------------------------------------------------------------- batches apart

  /**
   * Once the last id is the largest one, the scan for gaps starts at 0 again: it claims ids below the new one that
   * are still in a batch.
   */
  ghost predicate Rescans(s: RouterState, id: int) {
    && s.lastDataId == UINT_MAX && id !in s.lostFromPrev
    && exists x, r {:trigger x in s.batches[r]} :: r in s.batches && x in s.batches[r]
         && 0 <= x < id && x !in s.lostFromPrev && x !in s.waitNext && x !in s.transmitted
  }

  /** The event is a new capsule that makes the router claim ids it has claimed before. */
  ghost predicate Reclaims(cfg: Config, s: RouterState, e: Event) {
    e.Capsule? && !cfg.retranDisabled && e.dataId !in s.transmitted && Rescans(s, e.dataId)
  }

  lemma ApartFewer(batches: map<nat, set<int>>, batches': map<nat, set<int>>)
    requires Apart(batches)
    requires forall id, r {:trigger id in batches'[r]} :: r in batches' && id in batches'[r] ==> r in batches && id in batches[r]
    ensures Apart(batches')
  {
  }

  lemma ApartOpened(s: RouterState, ids: set<int>)
    requires Apart(s.batches) && Numbered(s)
    requires forall id, r {:trigger id in s.batches[r]} :: r in s.batches && id in s.batches[r] ==> id !in ids
    ensures Apart(s.batches[s.curBatchID := ids])
  {
  }

  lemma OpenBatchKeeps(cfg: Config, s: RouterState, ids: set<int>, fromReport: bool, paths: Paths)
    requires ids != {}
    ensures OpenBatch(cfg, s, ids, fromReport, paths).s.batches == s.batches[s.curBatchID := ids]
  {
  }

  lemma CapsuleBatches(cfg: Config, s: RouterState, id: int, paths: Paths)
    requires !cfg.retranDisabled && id !in s.transmitted
    ensures OnCapsule(cfg, s, id, paths).s.batches == Accept(cfg, s.(transmitted := s.transmitted + {id}), id, paths).s.batches
  {
    hide Accept, ComputeNextDataId;
  }

  /** Exactly when a capsule that has not been received leaves every id in at most one batch. */
  lemma CapsuleKeepsApart(cfg: Config, s: RouterState, id: int, paths: Paths)
    requires Safe(s) && Apart(s.batches) && !cfg.retranDisabled && 0 <= id <= UINT_MAX && id !in s.transmitted
    ensures Apart(OnCapsule(cfg, s, id, paths).s.batches) <==> !Rescans(s, id)
  {
    hide OnCapsule, OpenBatch, LeftAlone, LeftOnce;
    CapsuleBatches(cfg, s, id, paths);
    var s1 := s.(transmitted := s.transmitted + {id});
    var ids := NewLost(s1, id);
    if id !in s.lostFromPrev && id > Uint32(s.lastDataId + 1) && ids != {} {
      OpenBatchKeeps(cfg, s1, ids, false, paths);
      if Rescans(s, id) {
        var x, r :| r in s.batches && x in s.batches[r] && 0 <= x < id && x !in s.lostFromPrev && x !in s.waitNext && x !in s.transmitted;
        var batches' := s.batches[s.curBatchID := ids];
        assert x in ids && r < s.curBatchID;
        assert x in batches'[r] && x in batches'[s.curBatchID];
      } else {
        NoneReclaimed(s, s1, id);
        ApartOpened(s1, ids);
      }
    } else {
      assert s.lastDataId == UINT_MAX && id !in s.lostFromPrev ==>
             forall x {:trigger x in ids} :: 0 <= x < id && x !in s.lostFromPrev && x !in s.waitNext && x !in s.transmitted ==> x in ids;
    }
  }

  lemma NoneReclaimed(s: RouterState, s1: RouterState, id: int)
    requires Safe(s) && !Rescans(s, id) && id <= UINT_MAX && id !in s.lostFromPrev && s1 == s.(transmitted := s.transmitted + {id})
    ensures forall x, r {:trigger x in s.batches[r]} :: r in s.batches && x in s.batches[r] ==> x !in NewLost(s1, id)
  {
    hide LeftAlone, LeftOnce, Numbered;
  }

  lemma AnswerBatches(s: RouterState, bri: nat, id: int, requestedId: int, paths: Paths)
    ensures OnRetranS(s, id, requestedId, paths).s.batches == s.batches
    ensures Apart(s.batches) ==> Apart(OnRetranM(s, bri, id, requestedId, paths).s.batches)
  {
    hide Apart, ComputeNextDataId;
    if Apart(s.batches) {
      ApartFewer(s.batches, OnRetranM(s, bri, id, requestedId, paths).s.batches);
    }
  }

  lemma ReportBatches(s: RouterState, uid: int, ids: set<int>, timeoutKnown: bool)
    requires Apart(s.batches)
    ensures Apart(OnReport(s, uid, ids, timeoutKnown).batches)
  {
    hide Apart, ComputeNextDataId, MaxOf;
    ApartFewer(s.batches, OnReport(s, uid, ids, timeoutKnown).batches);
  }

  lemma TimerBatches(cfg: Config, s: RouterState, rbi: nat, k: nat, paths: Paths)
    requires Safe(s) && Apart(s.batches)
    ensures rbi in s.batchTimers ==> Apart(OnBatchTimer(s, rbi, paths).s.batches)
    ensures k in s.waitTimers && k in s.waitSets ==> Apart(OnWaitTimer(cfg, s, k, paths).s.batches)
  {
    hide Apart, OpenBatch, LeftOnce, Behind;
    if rbi in s.batchTimers {
      ApartFewer(s.batches, OnBatchTimer(s, rbi, paths).s.batches);
    }
    if k in s.waitTimers && k in s.waitSets {
      var s1 := s.(waitTimers := s.waitTimers - {k}, waitRecords := WithoutEvent(s.waitRecords, Uint32(k)));
      var ids := s.waitSets[k] - s.transmitted;
      if ids != {} {
        OpenBatchKeeps(cfg, s1, ids, true, paths);
        ApartOpened(s1, ids);
      }
    }
  }

  /** Exactly when a step leaves every id in at most one batch. */
  lemma StepKeepsApart(cfg: Config, s: RouterState, e: Event)
    requires Safe(s) && Apart(s.batches) && Enabled(s, e) && Carries(e)
    ensures Apart(Step(cfg, s, e).s.batches) <==> !Reclaims(cfg, s, e)
  {
    hide Safe, Apart, Rescans, OnReport, OnBatchTimer, OnWaitTimer, OnRetranS, OnRetranM;
    match e
    case Capsule(id, paths) =>
      if !cfg.retranDisabled && id !in s.transmitted {
        CapsuleKeepsApart(cfg, s, id, paths);
      }
    case RetranSMiss(id) =>
    case RetranS(id, requestedId, paths) => AnswerBatches(s, 0, id, requestedId, paths);
    case RetranM(bri, id, requestedId, paths) => AnswerBatches(s, bri, id, requestedId, paths);
    case Report(uid, ids, timeoutKnown) => ReportBatches(s, uid, ids, timeoutKnown);
    case NextTimer(id) =>
    case BatchTimer(rbi, paths) => TimerBatches(cfg, s, rbi, 0, paths);
    case WaitTimer(k, paths) =>
      assert k in s.waitTimers && k in s.waitSets;
      TimerBatches(cfg, s, 0, k, paths);
  }

  /** No capsule of the run made the router claim ids again. */
  ghost predicate NeverReclaims(cfg: Config, es: seq<Event>) {
    forall k, r {:trigger Leads(cfg, es[..k], r)} :: 0 <= k < |es| && Leads(cfg, es[..k], r) ==> !Reclaims(cfg, r.s, es[k])
  }

  /** No id was in two batches at any time during the run. */
  ghost predicate AlwaysApart(cfg: Config, es: seq<Event>) {
    forall k, r {:trigger Leads(cfg, es[..k], r)} :: 0 <= k <= |es| && Leads(cfg, es[..k], r) ==> Apart(r.s.batches)
  }

  lemma Prefixes(es: seq<Event>, k: int)
    requires es != [] && 0 <= k < |es|
    ensures es[..|es| - 1][..k] == es[..k] && es[..|es|] == es && (k < |es| - 1 ==> es[..|es| - 1][k] == es[k])
  {
  }

  lemma AlwaysApartStep(cfg: Config, es: seq<Event>, r: Result)
    requires es != [] && Leads(cfg, es, r)
    ensures AlwaysApart(cfg, es) <==> AlwaysApart(cfg, es[..|es| - 1]) && Apart(r.s.batches)
  {
    hide Leads, Apart;
    var init := es[..|es| - 1];
    forall k | 0 <= k < |es| ensures init[..k] == es[..k] && es[..|es|] == es {
      Prefixes(es, k);
    }
    forall r' | Leads(cfg, es, r') ensures r' == r {
      LeadsUnique(cfg, es, r', r);
    }
    assert Leads(cfg, es[..|es|], r);
    if AlwaysApart(cfg, es) {
      forall k, r' | 0 <= k <= |init| && Leads(cfg, init[..k], r') ensures Apart(r'.s.batches) {
        assert Leads(cfg, es[..k], r');
      }
    }
    if AlwaysApart(cfg, init) && Apart(r.s.batches) {
      forall k, r' | 0 <= k <= |es| && Leads(cfg, es[..k], r') ensures Apart(r'.s.batches) {
        if k < |es| {
          assert Leads(cfg, init[..k], r');
        }
      }
    }
  }

  lemma NeverReclaimsStep(cfg: Config, es: seq<Event>, r0: Result)
    requires es != [] && Leads(cfg, es[..|es| - 1], r0)
    ensures NeverReclaims(cfg, es) <==> NeverReclaims(cfg, es[..|es| - 1]) && !Reclaims(cfg, r0.s, es[|es| - 1])
  {
    hide Leads, Reclaims;
    var init := es[..|es| - 1];
    forall k | 0 <= k < |es| ensures init[..k] == es[..k] && (k < |es| - 1 ==> init[k] == es[k]) {
      Prefixes(es, k);
    }
    forall r | Leads(cfg, init, r) ensures r == r0 {
      LeadsUnique(cfg, init, r, r0);
    }
    if NeverReclaims(cfg, es) {
      assert es[..|es| - 1] == init;
      forall k, r | 0 <= k < |init| && Leads(cfg, init[..k], r) ensures !Reclaims(cfg, r.s, init[k]) {
        assert Leads(cfg, es[..k], r);
      }
    }
    if NeverReclaims(cfg, init) && !Reclaims(cfg, r0.s, es[|es| - 1]) {
      forall k, r | 0 <= k < |es| && Leads(cfg, es[..k], r) ensures !Reclaims(cfg, r.s, es[k]) {
        if k < |es| - 1 {
          assert Leads(cfg, init[..k], r);
        }
      }
    }
  }

  lemma ApartAtEnd(cfg: Config, es: seq<Event>, r: Result)
    requires AlwaysApart(cfg, es) && Leads(cfg, es, r)
    ensures Apart(r.s.batches)
  {
    hide Leads, Apart;
    assert es[..|es|] == es;
  }

  /**
   * Whatever arrives and whichever timers fire: no lost id is ever in two outstanding batches exactly if no capsule
   * made the router claim ids again, as one can only after the largest 32-bit id has been the last one.
   */
  lemma {:induction false} ExclusiveBatches(cfg: Config, es: seq<Event>, r: Result)
    requires Leads(cfg, es, r) && forall e :: e in es ==> Carries(e)
    ensures AlwaysApart(cfg, es) <==> NeverReclaims(cfg, es)
  {
    hide Step, Reclaims, Apart, Carries, AlwaysApart, NeverReclaims;
    if es == [] {
      InitialApart(cfg);
    } else {
      var init, e := es[..|es| - 1], es[|es| - 1];
      var r0 :| Leads(cfg, init, r0) && Enabled(r0.s, e) && r == Result(Step(cfg, r0.s, e).s, r0.out + Step(cfg, r0.s, e).out);
      ExclusiveBatches(cfg, init, r0);
      AlwaysApartStep(cfg, es, r);
      NeverReclaimsStep(cfg, es, r0);
      if AlwaysApart(cfg, init) {
        NextApart(cfg, init, r0, e);
      }
    }
  }

  lemma InitialApart(cfg: Config)
    ensures AlwaysApart(cfg, []) && NeverReclaims(cfg, [])
  {
  }

  lemma NextApart(cfg: Config, es: seq<Event>, r: Result, e: Event)
    requires Leads(cfg, es, r) && (forall e' :: e' in es ==> Carries(e')) && AlwaysApart(cfg, es) && Enabled(r.s, e) && Carries(e)
    ensures Apart(Step(cfg, r.s, e).s.batches) <==> !Reclaims(cfg, r.s, e)
  {
    hide *;
    ApartAtEnd(cfg, es, r);
    SafeRuns(cfg, es, r);
    StepKeepsApart(cfg, r.s, e);
  }

  // ----------------------------------------------------------- without the reserved id

  /** The packet carries the id reserved for "no data". */
  ghost predicate Reserved(e: Event) {
    (e.Capsule? || e.RetranS? || e.RetranM?) && e.dataId == UINT_MAX
  }

  lemma LastStep(cfg: Config, s: RouterState, e: Event)
    requires Enabled(s, e)
    ensures || Step(cfg, s, e).s.lastDataId == s.lastDataId
            || ((e.Capsule? || e.RetranS? || e.RetranM?) && Step(cfg, s, e).s.lastDataId == e.dataId)
  {
    hide ComputeNextDataId, NewLost, MaxOf, Round, Deliver;
    match e
    case Capsule(id, paths) => LastAccept(cfg, s.(transmitted := s.transmitted + {id}), id, paths);
    case RetranSMiss(id) =>
    case RetranS(id, requestedId, paths) =>
    case RetranM(bri, id, requestedId, paths) =>
    case Report(uid, ids, timeoutKnown) =>
    case NextTimer(id) =>
    case BatchTimer(rbi, paths) => LastRound(s.(batchTimers := s.batchTimers - {rbi}), rbi, s.batchTimers[rbi], paths);
    case WaitTimer(k, paths) =>
      var s1 := s.(waitTimers := s.waitTimers - {k}, waitRecords := WithoutEvent(s.waitRecords, Uint32(k)));
      OpenBatchLast(cfg, s1, s.waitSets[k] - s.transmitted, true, paths);
  }

  lemma LastRound(s: RouterState, rbi: nat, rest: nat, paths: Paths)
    ensures Round(s, rbi, rest, paths).s.lastDataId == s.lastDataId
  {
  }

  lemma LastAccept(cfg: Config, s: RouterState, id: int, paths: Paths)
    ensures Accept(cfg, s, id, paths).s.lastDataId == s.lastDataId || Accept(cfg, s, id, paths).s.lastDataId == id
  {
    hide OpenBatch, NewLost;
    OpenBatchLast(cfg, s, NewLost(s, id), false, paths);
  }

  lemma {:induction false} LastBelow(cfg: Config, es: seq<Event>, r: Result)
    requires Leads(cfg, es, r) && forall e :: e in es ==> Carries(e) && !Reserved(e)
    ensures 0 <= r.s.lastDataId < UINT_MAX
  {
    hide Step;
    if es == [] {
      assert r.s == INITIAL;
    } else {
      var e := es[|es| - 1];
      var r0 :| Leads(cfg, es[..|es| - 1], r0) && Enabled(r0.s, e) && r == Result(Step(cfg, r0.s, e).s, r0.out + Step(cfg, r0.s, e).out);
      LastBelow(cfg, es[..|es| - 1], r0);
      LastStep(cfg, r0.s, e);
      assert e in es;
    }
  }

  /** A run in which no packet carries the reserved id claims no id again. */
  lemma UnreservedNeverReclaims(cfg: Config, es: seq<Event>)
    requires forall e :: e in es ==> Carries(e) && !Reserved(e)
    ensures NeverReclaims(cfg, es)
  {
    forall k, r | 0 <= k < |es| && Leads(cfg, es[..k], r) ensures !Reclaims(cfg, r.s, es[k]) {
      LastBelow(cfg, es[..k], r);
    }
  }
}
