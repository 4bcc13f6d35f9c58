/** In how many batches a router asks for an id over a whole run. */
module RetransmissionCounts {
  import opened Common
  import opened RetransmissionSpec
  import opened RetransmissionBudgets
  import opened RetransmissionSafety

  // --------------------------------------------------------------------------- the invariant

  /** The id was received, is known as lost upstream, or is in a batch. */
  ghost predicate Held(s: RouterState, id: int) {
    id in s.transmitted || id in s.lostFromPrev || exists r {:trigger id in s.batches[r]} :: r in s.batches && id in s.batches[r]
  }

  /** An id put into a batch for a gap found here is not ahead of the last one, and still accounted for. */
  ghost predicate Found(out: seq<Output>, s: RouterState) {
    forall id {:trigger Opens(out, false, id)} :: Opens(out, false, id) >= 1 ==> id <= s.lastDataId && Held(s, id)
  }

  /** An id in a batch that was not received and is not known as lost upstream was found here. */
  ghost predicate Origin(out: seq<Output>, s: RouterState) {
    forall id, r {:trigger id in s.batches[r]} :: r in s.batches && id in s.batches[r] ==>
      id in s.transmitted || id in s.lostFromPrev || Opens(out, false, id) >= 1
  }

  /** An id is in at most one batch for a report, and will not be again: it is known as lost, but no longer left to anyone. */
  ghost predicate ReportedOnce(out: seq<Output>, s: RouterState) {
    forall id {:trigger Opens(out, true, id)} :: Opens(out, true, id) <= 1 && (Opens(out, true, id) == 1 && id !in s.transmitted ==>
      id in s.lostFromPrev && forall k {:trigger s.waitSets[k]} :: k in s.waitTimers && k in s.waitSets ==> id !in s.waitSets[k])
  }

  ghost predicate Counted(out: seq<Output>, s: RouterState) {
    Found(out, s) && Origin(out, s) && ReportedOnce(out, s)
  }

  // ----------------------------------------------------------------- steps that put nothing out

  /** A later state in which nothing new is asked for or left to others, and nothing forgotten. */
  ghost predicate Shrinks(s: RouterState, s': RouterState) {
    && s.lastDataId <= s'.lastDataId && s.transmitted <= s'.transmitted
    && (forall id :: id in s.lostFromPrev ==> id in s'.lostFromPrev || id in s'.transmitted)
    && (forall id {:trigger Held(s, id)} :: Held(s, id) ==> Held(s', id))
    && (forall id, r {:trigger id in s'.batches[r]} :: r in s'.batches && id in s'.batches[r] ==> r in s.batches && id in s.batches[r])
    && (forall id, k {:trigger id in s'.waitSets[k]} :: k in s'.waitTimers && k in s'.waitSets && id in s'.waitSets[k] ==>
         k in s.waitTimers && k in s.waitSets && id in s.waitSets[k])
  }

  lemma CountedShrinks(out: seq<Output>, s: RouterState, s': RouterState)
    requires Counted(out, s) && Shrinks(s, s')
    ensures Counted(out, s')
  {
    hide Opens, Held;
  }

  lemma ShrinksSimple(s: RouterState, s': RouterState)
    requires s'.batches == s.batches && s.lastDataId <= s'.lastDataId
    requires s.transmitted <= s'.transmitted && s.lostFromPrev - s'.transmitted <= s'.lostFromPrev
    requires s'.waitSets == s.waitSets && s'.waitTimers <= s.waitTimers
    ensures Shrinks(s, s')
  {
  }

  lemma ShrinksNext(s: RouterState, id: int)
    ensures Shrinks(s, WaitForNext(s, id)) && Shrinks(s, CleanWaitForNext(s, id)) && Shrinks(s, OnRetranSMiss(s, id)) && Shrinks(s, OnNextTimer(s, id))
  {
    hide Shrinks;
    ShrinksSimple(s, WaitForNext(s, id));
    ShrinksSimple(s, CleanWaitForNext(s, id));
    ShrinksSimple(s, OnRetranSMiss(s, id));
    ShrinksSimple(s, OnNextTimer(s, id));
  }

  lemma ShrinksRaised(s: RouterState, id: int)
    ensures Shrinks(s, Raised(s, id))
  {
    hide Shrinks, ComputeNextDataId;
    ShrinksSimple(s, Raised(s, id));
  }

  lemma ShrinksCleanBatch(s: RouterState, bri: nat, dataId: int)
    requires dataId in s.transmitted
    ensures Shrinks(s, CleanBatch(s, bri, dataId))
  {
    var s' := CleanBatch(s, bri, dataId);
    forall id | Held(s, id) ensures Held(s', id) {
      if id !in s.transmitted && id !in s.lostFromPrev {
        var r :| r in s.batches && id in s.batches[r];
        assert r in s'.batches && id in s'.batches[r];
      }
    }
  }

  lemma ShrinksCleanWaits(s: RouterState, id: int)
    ensures Shrinks(s, CleanWaits(s, id))
  {
    forall x | Held(s, x) ensures Held(CleanWaits(s, id), x) {}
  }

  lemma ShrinksYield(s: RouterState)
    ensures Shrinks(s, Yield(s))
  {
    var s' := Yield(s);
    forall id | Held(s, id) ensures Held(s', id) {
      if id !in s.transmitted && id !in s.lostFromPrev {
        var r :| r in s.batches && id in s.batches[r];
        assert id in s.batches[r] - s.lostFromPrev;
        assert r in s'.batches && id in s'.batches[r];
      }
    }
  }

  lemma ShrinksRound(s: RouterState, rbi: nat, rest: nat, paths: Paths)
    ensures Shrinks(s, Round(s, rbi, rest, paths).s)
  {
    var s' := Round(s, rbi, rest, paths).s;
    forall id | Held(s, id) ensures Held(s', id) {
      if id !in s.transmitted && id !in s.lostFromPrev {
        var r :| r in s.batches && id in s.batches[r];
        assert r in s'.batches && id in s'.batches[r];
      }
    }
  }

  /** New ids left to an upstream router are none of those a batch was opened for. */
  lemma CountedDeferred(out: seq<Output>, s: RouterState, ids: set<int>, timeoutKnown: bool)
    requires Safe(s) && Counted(out, s)
    ensures var s2 := Deferred(s, ids, timeoutKnown); Counted(out, s2.(lostFromPrev := s2.lostFromPrev + ids))
  {
    hide Opens, Behind, LeftAlone, LeftOnce;
  }

  // ------------------------------------------------------------------------------ outputs

  /** Nothing is put out that opens a batch. */
  ghost predicate OpensNothing(more: seq<Output>) {
    forall o :: o in more ==> !o.Opened?
  }

  lemma SameOpens(out: seq<Output>, more: seq<Output>)
    requires OpensNothing(more)
    ensures forall f, id {:trigger Opens(out + more, f, id)} :: Opens(out + more, f, id) == Opens(out, f, id)
  {
    forall f, id ensures Opens(out + more, f, id) == Opens(out, f, id) {
      CountAppend(out, more, OpensOf(f, id));
      CountNone(more, OpensOf(f, id));
    }
  }

  lemma CountedSame(out: seq<Output>, s: RouterState, more: seq<Output>)
    requires Counted(out, s) && OpensNothing(more)
    ensures Counted(out + more, s)
  {
    hide Opens, Held, OpensNothing;
    SameOpens(out, more);
  }

  /** What a new opening adds to the counts. */
  lemma OpenedCounts(out: seq<Output>, rbi: nat, flag: bool, ids: set<int>)
    ensures var out' := out + [Opened(rbi, flag, ids)];
            forall f, id {:trigger Opens(out', f, id)} :: Opens(out', f, id) == Opens(out, f, id) + if f == flag && id in ids then 1 else 0
  {
    var o := Opened(rbi, flag, ids);
    assert (out + [o])[..|out|] == out;
  }

  lemma RoundOpensNothing(s: RouterState, rbi: nat, rest: nat, paths: Paths)
    ensures OpensNothing(Round(s, rbi, rest, paths).out)
  {
  }

  /** The ids of a new batch: left to nobody any longer, or missing in a gap. */
  ghost predicate NewIds(out: seq<Output>, s: RouterState, ids: set<int>, flag: bool, last: int) {
    forall id :: id in ids ==>
      if flag then
        Opens(out, true, id) == 0 && id in s.lostFromPrev && forall k {:trigger s.waitSets[k]} :: k in s.waitTimers && k in s.waitSets ==> id !in s.waitSets[k]
      else id <= last
  }

  lemma CountedOpened(out: seq<Output>, s: RouterState, ids: set<int>, flag: bool, last: int)
    requires Safe(s) && Counted(out, s) && NewIds(out, s, ids, flag, last) && s.lastDataId <= last
    ensures var rbi := s.curBatchID;
            Counted(out + [Opened(rbi, flag, ids)], s.(curBatchID := rbi + 1, batches := s.batches[rbi := ids], lastDataId := last))
  {
    hide Opens, Behind, LeftAlone, LeftOnce;
    var rbi := s.curBatchID;
    var s1 := s.(curBatchID := rbi + 1, batches := s.batches[rbi := ids], lastDataId := last);
    OpenedCounts(out, rbi, flag, ids);
    forall id | Held(s, id) || id in ids ensures Held(s1, id) {
      if id in ids {
        assert id in s1.batches[rbi];
      } else if id !in s.transmitted && id !in s.lostFromPrev {
        var r :| r in s.batches && id in s.batches[r];
        assert r in s1.batches && id in s1.batches[r];
      }
    }
    hide Held;
  }

  lemma CountedOpen(cfg: Config, out: seq<Output>, s: RouterState, ids: set<int>, flag: bool, paths: Paths, last: int)
    requires Safe(s) && Counted(out, s) && NewIds(out, s, ids, flag, last) && s.lastDataId <= last
    ensures var r := OpenBatch(cfg, s, ids, flag, paths); Counted(out + r.out, r.s.(lastDataId := last))
  {
    hide Safe, Counted, NewIds, Round, OpensNothing, Shrinks;
    var n, rbi := cfg.numRetransRequests, s.curBatchID;
    var s0 := s.(curBatchID := rbi + 1, batches := s.batches[rbi := ids]);
    var out1 := out + [Opened(rbi, flag, ids)];
    var r := Round(s0.(lastDataId := last), rbi, n, paths);
    CountedOpened(out, s, ids, flag, last);
    ShrinksRound(s0.(lastDataId := last), rbi, n, paths);
    CountedShrinks(out1, s0.(lastDataId := last), r.s);
    RoundOpensNothing(s0.(lastDataId := last), rbi, n, paths);
    CountedSame(out1, r.s, r.out);
    RoundLast(s0, rbi, n, paths, last);
    RoundOut(s0, rbi, n, paths, last);
    assert out1 + r.out == out + ([Opened(rbi, flag, ids)] + r.out);
  }

  lemma RoundOut(s: RouterState, rbi: nat, rest: nat, paths: Paths, last: int)
    ensures Round(s.(lastDataId := last), rbi, rest, paths).out == Round(s, rbi, rest, paths).out
  {
  }

  // ------------------------------------------------------------------------------ handlers

  lemma CountedAccept(cfg: Config, out: seq<Output>, s: RouterState, id: int, paths: Paths)
    requires Safe(s) && Counted(out, s) && 0 <= id <= UINT_MAX && id in s.transmitted
    ensures Counted(out + Accept(cfg, s, id, paths).out, Accept(cfg, s, id, paths).s)
  {
    hide Counted, NewIds, NewLost, OpenBatch, Shrinks, Safe;
    assert out + [] == out;
    var last := if id > s.lastDataId then id else s.lastDataId;
    if id in s.lostFromPrev {
      ShrinksSimple(s, s.(lostFromPrev := s.lostFromPrev - {id}));
      CountedShrinks(out, s, s.(lostFromPrev := s.lostFromPrev - {id}));
    } else if NewLost(s, id) == {} || id <= Uint32(s.lastDataId + 1) {
      ShrinksSimple(s, s.(lastDataId := last));
      CountedShrinks(out, s, s.(lastDataId := last));
      assert s.(lastDataId := s.lastDataId) == s;
    } else {
      assert NewIds(out, s, NewLost(s, id), false, last) by { NewLostNew(out, s, id); }
      CountedOpen(cfg, out, s, NewLost(s, id), false, paths, last);
      OpenBatchLast(cfg, s, NewLost(s, id), false, paths);
      var r := OpenBatch(cfg, s, NewLost(s, id), false, paths);
      assert r.s.(lastDataId := r.s.lastDataId) == r.s;
    }
  }

  lemma NewLostNew(out: seq<Output>, s: RouterState, id: int)
    ensures NewIds(out, s, NewLost(s, id), false, if id > s.lastDataId then id else s.lastDataId)
  {
  }

  lemma CountedCapsule(cfg: Config, out: seq<Output>, s: RouterState, id: int, paths: Paths)
    requires Safe(s) && Counted(out, s) && 0 <= id <= UINT_MAX
    ensures Counted(out + OnCapsule(cfg, s, id, paths).out, OnCapsule(cfg, s, id, paths).s)
  {
    hide Safe, Counted, Accept, CleanWaits, CleanWaitForNext, WaitForNext, ComputeNextDataId, Shrinks;
    assert out + [] == out;
    if cfg.retranDisabled {
      CountedSame(out, s, Deliver(id, id, paths));
    } else if id !in s.transmitted {
      var s1 := s.(transmitted := s.transmitted + {id});
      SafeReceived(s, id);
      ShrinksSimple(s, s1);
      CountedShrinks(out, s, s1);
      CountedAccept(cfg, out, s1, id, paths);
      var r := Accept(cfg, s1, id, paths);
      var out1 := out + r.out;
      ShrinksNext(r.s, id);
      CountedShrinks(out1, r.s, CleanWaitForNext(r.s, id));
      var s3 := CleanWaits(CleanWaitForNext(r.s, id), id);
      ShrinksCleanWaits(CleanWaitForNext(r.s, id), id);
      CountedShrinks(out1, CleanWaitForNext(r.s, id), s3);
      ShrinksNext(s3, ComputeNextDataId(s3, id));
      CountedShrinks(out1, s3, WaitForNext(s3, ComputeNextDataId(s3, id)));
      var s4 := OnCapsule(cfg, s, id, paths).s;
      CountedSame(out1, s4, Deliver(id, id, paths));
      assert out + (r.out + Deliver(id, id, paths)) == out1 + Deliver(id, id, paths);
    }
  }

  lemma CountedRetranS(out: seq<Output>, s: RouterState, id: int, requestedId: int, paths: Paths)
    requires Counted(out, s)
    ensures Counted(out + OnRetranS(s, id, requestedId, paths).out, OnRetranS(s, id, requestedId, paths).s)
  {
    hide Counted, Raised, Shrinks, CleanWaitForNext;
    assert out + [] == out;
    if id !in s.transmitted {
      var s1 := s.(transmitted := s.transmitted + {id}, waitNext := s.waitNext + {id});
      ShrinksSimple(s, s1);
      ShrinksNext(s1, requestedId);
      ShrinksRaised(CleanWaitForNext(s1, requestedId), id);
      CountedShrinks(out, s, s1);
      CountedShrinks(out, s1, CleanWaitForNext(s1, requestedId));
      CountedShrinks(out, CleanWaitForNext(s1, requestedId), Raised(CleanWaitForNext(s1, requestedId), id));
      CountedSame(out, Raised(CleanWaitForNext(s1, requestedId), id), Deliver(id, requestedId, paths));
    }
  }

  lemma CountedRetranM(out: seq<Output>, s: RouterState, bri: nat, id: int, requestedId: int, paths: Paths)
    requires Counted(out, s)
    ensures Counted(out + OnRetranM(s, bri, id, requestedId, paths).out, OnRetranM(s, bri, id, requestedId, paths).s)
  {
    hide Counted, Raised, Shrinks, CleanBatch;
    assert out + [] == out;
    if id !in s.transmitted {
      var s1 := s.(transmitted := s.transmitted + {id});
      ShrinksSimple(s, s1);
      ShrinksCleanBatch(s1, bri, id);
      ShrinksRaised(CleanBatch(s1, bri, id), id);
      CountedShrinks(out, s, s1);
      CountedShrinks(out, s1, CleanBatch(s1, bri, id));
      CountedShrinks(out, CleanBatch(s1, bri, id), Raised(CleanBatch(s1, bri, id), id));
      CountedSame(out, Raised(CleanBatch(s1, bri, id), id), Deliver(id, requestedId, paths));
    }
  }

  lemma CountedReport(out: seq<Output>, s: RouterState, uid: int, ids: set<int>, timeoutKnown: bool)
    requires Safe(s) && Counted(out, s)
    ensures Counted(out, OnReport(s, uid, ids, timeoutKnown))
  {
    hide Counted, Shrinks, Yield, Deferred, WaitForNext, ComputeNextDataId, MaxOf;
    var s1 := s.(recentReportUIDs := s.recentReportUIDs + {uid});
    assert Safe(s1);
    hide Safe;
    ShrinksSimple(s, s1);
    CountedShrinks(out, s, s1);
    var s2 := Deferred(s1, ids, timeoutKnown);
    var s3 := s2.(lostFromPrev := s2.lostFromPrev + ids);
    CountedDeferred(out, s1, ids, timeoutKnown);
    ShrinksYield(s3);
    CountedShrinks(out, s3, Yield(s3));
    var waiting := s3.lostFromPrev * s3.waitNext;
    if waiting != {} {
      ShrinksNext(Yield(s3), ComputeNextDataId(Yield(s3), MaxOf(waiting)));
      CountedShrinks(out, Yield(s3), WaitForNext(Yield(s3), ComputeNextDataId(Yield(s3), MaxOf(waiting))));
    }
  }

  lemma CountedBatchTimer(out: seq<Output>, s: RouterState, rbi: nat, paths: Paths)
    requires Counted(out, s) && rbi in s.batchTimers
    ensures Counted(out + OnBatchTimer(s, rbi, paths).out, OnBatchTimer(s, rbi, paths).s)
  {
    hide Counted, Shrinks, Round, OpensNothing;
    var s1 := s.(batchTimers := s.batchTimers - {rbi});
    var r := Round(s1, rbi, s.batchTimers[rbi], paths);
    ShrinksSimple(s, s1);
    CountedShrinks(out, s, s1);
    ShrinksRound(s1, rbi, s.batchTimers[rbi], paths);
    CountedShrinks(out, s1, r.s);
    RoundOpensNothing(s1, rbi, s.batchTimers[rbi], paths);
    CountedSame(out, r.s, r.out);
  }

  lemma CountedWaitTimer(cfg: Config, out: seq<Output>, s: RouterState, k: nat, paths: Paths)
    requires Safe(s) && Counted(out, s) && k in s.waitTimers && k in s.waitSets
    ensures Counted(out + OnWaitTimer(cfg, s, k, paths).out, OnWaitTimer(cfg, s, k, paths).s)
  {
    hide Behind, Numbered, OpenBatch, WithoutEvent, Found, Origin, Opens, Shrinks;
    var s1 := s.(waitTimers := s.waitTimers - {k}, waitRecords := WithoutEvent(s.waitRecords, Uint32(k)));
    var ids := s.waitSets[k] - s.transmitted;
    assert out + [] == out;
    ShrinksSimple(s, s1);
    CountedShrinks(out, s, s1);
    if ids != {} {
      WaitTimerReady(s, k);
      assert NewIds(out, s1, ids, true, s1.lastDataId);
      CountedOpen(cfg, out, s1, ids, true, paths, s1.lastDataId);
      OpenBatchLast(cfg, s1, ids, true, paths);
    }
  }

  lemma WaitTimerReady(s: RouterState, k: nat)
    requires Safe(s) && k in s.waitTimers && k in s.waitSets
    ensures Safe(s.(waitTimers := s.waitTimers - {k}, waitRecords := WithoutEvent(s.waitRecords, Uint32(k))))
  {
  }

  lemma CountedStep(cfg: Config, out: seq<Output>, s: RouterState, e: Event)
    requires Safe(s) && Counted(out, s) && Enabled(s, e) && Carries(e)
    ensures Counted(out + Step(cfg, s, e).out, Step(cfg, s, e).s)
  {
    hide Safe, Counted, Shrinks, OnCapsule, OnRetranSMiss, OnRetranS, OnRetranM, OnReport, OnNextTimer, OnBatchTimer, OnWaitTimer;
    assert out + [] == out;
    match e
    case Capsule(id, paths) => CountedCapsule(cfg, out, s, id, paths);
    case RetranSMiss(id) =>
      ShrinksNext(s, id);
      CountedShrinks(out, s, OnRetranSMiss(s, id));
    case RetranS(id, requestedId, paths) => CountedRetranS(out, s, id, requestedId, paths);
    case RetranM(bri, id, requestedId, paths) => CountedRetranM(out, s, bri, id, requestedId, paths);
    case Report(uid, ids, timeoutKnown) => CountedReport(out, s, uid, ids, timeoutKnown);
    case NextTimer(id) =>
      ShrinksNext(s, id);
      CountedShrinks(out, s, OnNextTimer(s, id));
    case BatchTimer(rbi, paths) => CountedBatchTimer(out, s, rbi, paths);
    case WaitTimer(k, paths) => CountedWaitTimer(cfg, out, s, k, paths);
  }

  lemma {:induction false} CountedRuns(cfg: Config, es: seq<Event>, r: Result)
    requires Leads(cfg, es, r) && forall e :: e in es ==> Carries(e)
    ensures Safe(r.s) && Counted(r.out, r.s)
  {
    hide Safe, Step, Counted;
    if es == [] {
      SafeInitial();
      CountedInitial();
    } else {
      var e := es[|es| - 1];
      var r0 :| Leads(cfg, es[..|es| - 1], r0) && Enabled(r0.s, e) && r == Result(Step(cfg, r0.s, e).s, r0.out + Step(cfg, r0.s, e).out);
      CountedRuns(cfg, es[..|es| - 1], r0);
      SafeStep(cfg, r0.s, e);
      CountedStep(cfg, r0.out, r0.s, e);
    }
  }

  lemma CountedInitial()
    ensures Counted([], INITIAL)
  {
  }

  /** Over a whole run an id is put into at most one batch for a report. */
  lemma ReportedAtMostOnce(cfg: Config, es: seq<Event>, r: Result, id: int)
    requires Leads(cfg, es, r) && forall e :: e in es ==> Carries(e)
    ensures Opens(r.out, true, id) <= 1
  {
    hide Leads, Safe, Found, Origin, Opens;
    CountedRuns(cfg, es, r);
  }

  // ------------------------------------------------------------------ gaps found only once

  /** No id was put into two batches for gaps found here. */
  ghost predicate FoundOnce(out: seq<Output>) {
    forall id {:trigger Opens(out, false, id)} :: Opens(out, false, id) <= 1
  }

  ghost predicate FindsNothing(more: seq<Output>) {
    forall o :: o in more && o.Opened? ==> o.fromReport
  }

  lemma SameFound(out: seq<Output>, more: seq<Output>)
    requires FindsNothing(more)
    ensures forall id {:trigger Opens(out + more, false, id)} :: Opens(out + more, false, id) == Opens(out, false, id)
  {
    forall id ensures Opens(out + more, false, id) == Opens(out, false, id) {
      CountAppend(out, more, OpensOf(false, id));
      CountNone(more, OpensOf(false, id));
    }
  }

  /** Only a new capsule, not known as lost upstream, can reveal a gap. */
  lemma StepFinds(cfg: Config, s: RouterState, e: Event)
    requires Enabled(s, e) && !(e.Capsule? && !cfg.retranDisabled && e.dataId !in s.transmitted)
    ensures FindsNothing(Step(cfg, s, e).out)
  {
    hide OnReport, OnRetranSMiss, OnNextTimer, Raised, CleanBatch, CleanWaitForNext;
  }

  /** What a new capsule adds to the counts. */
  lemma CapsuleFinds(cfg: Config, out: seq<Output>, s: RouterState, id: int, paths: Paths, x: int)
    requires !cfg.retranDisabled && id !in s.transmitted
    ensures var s1 := s.(transmitted := s.transmitted + {id});
            var ids := if id in s.lostFromPrev || id <= Uint32(s.lastDataId + 1) then {} else NewLost(s1, id);
            Opens(out + OnCapsule(cfg, s, id, paths).out, false, x) == Opens(out, false, x) + if x in ids then 1 else 0
  {
    hide CleanWaits, CleanWaitForNext, WaitForNext, ComputeNextDataId, Opens, NewLost, Round;
    var s1 := s.(transmitted := s.transmitted + {id});
    var d := Deliver(id, id, paths);
    var r := Accept(cfg, s1, id, paths);
    assert OnCapsule(cfg, s, id, paths).out == r.out + d;
    if id in s.lostFromPrev || id <= Uint32(s.lastDataId + 1) || NewLost(s1, id) == {} {
      assert r.out + d == d;
      SameFound(out, d);
    } else {
      var ids, rbi := NewLost(s1, id), s.curBatchID;
      var more := Round(s1.(curBatchID := rbi + 1, batches := s1.batches[rbi := ids]), rbi, cfg.numRetransRequests, paths).out;
      RoundOpensNothing(s1.(curBatchID := rbi + 1, batches := s1.batches[rbi := ids]), rbi, cfg.numRetransRequests, paths);
      assert r.out == [Opened(rbi, false, ids)] + more;
      assert out + (r.out + d) == out + [Opened(rbi, false, ids)] + (more + d);
      OpenedCounts(out, rbi, false, ids);
      SameFound(out + [Opened(rbi, false, ids)], more + d);
    }
  }

  /** Exactly when a new capsule puts no id into a second batch for a gap found here. */
  lemma CapsuleFindsOnce(cfg: Config, out: seq<Output>, s: RouterState, id: int, paths: Paths)
    requires Safe(s) && Counted(out, s) && FoundOnce(out) && 0 <= id <= UINT_MAX && !cfg.retranDisabled && id !in s.transmitted
    ensures FoundOnce(out + OnCapsule(cfg, s, id, paths).out) <==> !Rescans(s, id)
  {
    hide OnCapsule, Opens, LeftAlone, LeftOnce, ReportedOnce;
    var s1 := s.(transmitted := s.transmitted + {id});
    var ids := if id in s.lostFromPrev || id <= Uint32(s.lastDataId + 1) then {} else NewLost(s1, id);
    var out' := out + OnCapsule(cfg, s, id, paths).out;
    forall x ensures Opens(out', false, x) == Opens(out, false, x) + if x in ids then 1 else 0 {
      CapsuleFinds(cfg, out, s, id, paths, x);
    }
    if Rescans(s, id) {
      var x, r :| r in s.batches && x in s.batches[r] && 0 <= x < id && x !in s.lostFromPrev && x !in s.waitNext && x !in s.transmitted;
      assert x in ids && Opens(out', false, x) >= 2;
    } else {
      forall x ensures Opens(out', false, x) <= 1 {
        assert Opens(out, false, x) >= 1 ==> x <= s.lastDataId && Held(s, x);
      }
    }
  }

  lemma StepFindsOnce(cfg: Config, out: seq<Output>, s: RouterState, e: Event)
    requires Safe(s) && Counted(out, s) && FoundOnce(out) && Enabled(s, e) && Carries(e)
    ensures FoundOnce(out + Step(cfg, s, e).out) <==> !Reclaims(cfg, s, e)
  {
    hide Safe, Counted, Rescans, Opens, FindsNothing, OnCapsule;
    if e.Capsule? && !cfg.retranDisabled && e.dataId !in s.transmitted {
      CapsuleFindsOnce(cfg, out, s, e.dataId, e.paths);
    } else {
      hide Step;
      StepFinds(cfg, s, e);
      SameFound(out, Step(cfg, s, e).out);
    }
  }

  lemma FoundEarlier(out: seq<Output>, more: seq<Output>)
    requires FoundOnce(out + more)
    ensures FoundOnce(out)
  {
    hide Opens;
    forall id ensures Opens(out, false, id) <= 1 {
      assert Opens(out + more, false, id) <= 1;
      MoreOpens(out, more, id);
    }
  }

  lemma MoreOpens(out: seq<Output>, more: seq<Output>, id: int)
    ensures Opens(out + more, false, id) == Opens(out, false, id) + Opens(more, false, id)
  {
    CountAppend(out, more, OpensOf(false, id));
  }

  /** Over a whole run no id is put into two batches for gaps found here, exactly if no capsule made the router claim ids again. */
  lemma {:induction false} OpenedOnce(cfg: Config, es: seq<Event>, r: Result)
    requires Leads(cfg, es, r) && forall e :: e in es ==> Carries(e)
    ensures FoundOnce(r.out) <==> NeverReclaims(cfg, es)
  {
    hide Step, Safe, Reclaims, Carries, Counted, FoundOnce, NeverReclaims;
    if es == [] {
      assert r == Result(INITIAL, []);
      FoundNone();
      InitialApart(cfg);
    } else {
      var init, e := es[..|es| - 1], es[|es| - 1];
      var r0 :| Leads(cfg, init, r0) && Enabled(r0.s, e) && r == Result(Step(cfg, r0.s, e).s, r0.out + Step(cfg, r0.s, e).out);
      OpenedOnce(cfg, init, r0);
      NeverReclaimsStep(cfg, es, r0);
      if FoundOnce(r0.out) {
        CountedRuns(cfg, init, r0);
        StepFindsOnce(cfg, r0.out, r0.s, e);
      } else if FoundOnce(r.out) {
        FoundEarlier(r0.out, Step(cfg, r0.s, e).out);
      }
    }
  }

  lemma FoundNone()
    ensures FoundOnce([])
  {
  }

  /** Then an id is asked for in at most twice as many rounds as one batch may have. */
  lemma RequestsBounded(cfg: Config, es: seq<Event>, r: Result, id: int)
    requires Leads(cfg, es, r) && (forall e :: e in es ==> Carries(e)) && NeverReclaims(cfg, es)
    ensures Requests(r.out, id) <= 2 * cfg.numRetransRequests
  {
    hide Leads, NeverReclaims, Opens, Requests;
    RequestsCovered(cfg, es, r, id);
    OpenedOnce(cfg, es, r);
    ReportedAtMostOnce(cfg, es, r, id);
    var n, k := cfg.numRetransRequests, Opens(r.out, false, id) + Opens(r.out, true, id);
    assert n * k <= n * 2 by { assert k == 0 || k == 1 || k == 2; }
  }
}
