/** A batch that is not answered is asked for in as many rounds as are configured, no fewer. */
module RetransmissionRounds {
  import opened Common
  import opened RetransmissionSpec
  import opened RetransmissionBudgets
  import opened RetransmissionEffects
  import opened RetransmissionLiveness

  /** A round of the batch, its first or a later one, finds no path to ask over. */
  ghost predicate LacksPath(s: RouterState, e: Event, b: nat) {
    || (e.BatchTimer? && e.rbi == b && !e.paths.hasRetransPoint)
    || ((e.Capsule? || e.WaitTimer?) && s.curBatchID == b && !e.paths.hasRetransPoint)
  }

  ghost predicate PathAlways(cfg: Config, es: seq<Event>, b: nat) {
    es == [] || (PathAlways(cfg, es[..|es| - 1], b) && forall r :: Leads(cfg, es[..|es| - 1], r) ==> !LacksPath(r.s, es[|es| - 1], b))
  }

  /**
   * While its timer is scheduled, the rounds made for a batch and those left are as many as configured; after that all have
   * been made, if anything is left to ask for.
   */
  ghost predicate RoundsMade(n: nat, out: seq<Output>, s: RouterState, b: nat) {
    && (b >= s.curBatchID ==> Rounds(out, b) == 0 && b !in s.batches && b !in s.batchTimers)
    && (b in s.batchTimers ==> Rounds(out, b) + s.batchTimers[b] == n)
    && (b < s.curBatchID && b !in s.batchTimers && b in s.batches && s.batches[b] != {} ==> Rounds(out, b) == n)
  }

  lemma RoundsMore(out: seq<Output>, more: seq<Output>, b: nat)
    ensures Rounds(out + more, b) == Rounds(out, b) + Rounds(more, b)
  {
    CountAppend(out, more, RoundsOf(b));
  }

  lemma NoRounds(more: seq<Output>, b: nat)
    requires forall o :: o in more ==> !o.RequestM? || o.rbi != b
    ensures Rounds(more, b) == 0
  {
    CountNone(more, RoundsOf(b));
  }

  lemma AskedRounds(cfg: Config, s: RouterState, ids: set<int>, flag: bool, paths: Paths, sent: seq<Output>, b: nat)
    requires forall o :: o in sent ==> o.Forward?
    ensures Rounds(AskedFor(cfg, s, ids, flag, paths) + sent, b) ==
            if b == s.curBatchID && ids != {} && cfg.numRetransRequests > 0 && paths.hasRetransPoint then 1 else 0
  {
    var asked, round := AskedFor(cfg, s, ids, flag, paths), FirstRound(cfg, s, ids, paths);
    RoundsMore(asked, sent, b);
    NoRounds(sent, b);
    if ids != {} {
      var first := [Opened(s.curBatchID, flag, ids)];
      RoundsMore(first, round, b);
      NoRounds(first, b);
      if round != [] {
        CountOne(round[0], RoundsOf(b));
      }
    }
  }

  lemma MadeAdded(cfg: Config, out: seq<Output>, s: RouterState, s': RouterState, ids: set<int>, flag: bool, paths: Paths, sent: seq<Output>, b: nat)
    requires RoundsMade(cfg.numRetransRequests, out, s, b) && BatchAdded(cfg, s, s', ids, paths) && forall o :: o in sent ==> o.Forward?
    requires s.curBatchID == b ==> paths.hasRetransPoint
    ensures RoundsMade(cfg.numRetransRequests, out + (AskedFor(cfg, s, ids, flag, paths) + sent), s', b)
  {
    hide Rounds, AskedFor;
    RoundsMore(out, AskedFor(cfg, s, ids, flag, paths) + sent, b);
    AskedRounds(cfg, s, ids, flag, paths, sent, b);
  }

  /** An event that asks for nothing, and by which batches only shrink. */
  lemma MadeLess(n: nat, out: seq<Output>, s: RouterState, s': RouterState, more: seq<Output>, b: nat)
    requires RoundsMade(n, out, s, b) && s'.curBatchID == s.curBatchID && forall o :: o in more ==> o.Forward?
    requires b in s'.batches ==> b in s.batches && s'.batches[b] <= s.batches[b]
    requires b in s'.batchTimers ==> b in s.batchTimers && s'.batchTimers[b] == s.batchTimers[b]
    requires b in s.batchTimers && b !in s'.batchTimers ==> b !in s'.batches
    ensures RoundsMade(n, out + more, s', b)
  {
    hide Rounds;
    RoundsMore(out, more, b);
    NoRounds(more, b);
  }

  lemma MadeTimer(cfg: Config, out: seq<Output>, s: RouterState, rbi: nat, paths: Paths, b: nat)
    requires RoundsMade(cfg.numRetransRequests, out, s, b) && rbi in s.batchTimers && (rbi == b ==> paths.hasRetransPoint)
    ensures var r := OnBatchTimer(s, rbi, paths); RoundsMade(cfg.numRetransRequests, out + r.out, r.s, b)
  {
    hide Rounds;
    var r := OnBatchTimer(s, rbi, paths);
    RoundsMore(out, r.out, b);
    if r.out == [] || rbi != b {
      NoRounds(r.out, b);
    } else {
      assert r.out == [RequestM(b, s.batches[b])];
      CountOne(r.out[0], RoundsOf(b));
      assert Rounds(r.out, b) == 1 by { RoundsIs(r.out, b); }
    }
  }

  lemma RoundsIs(out: seq<Output>, b: nat)
    ensures Rounds(out, b) == Count(out, RoundsOf(b))
  {
  }

  lemma AnswerBatches(s: RouterState, bri: nat, id: int, requestedId: int, paths: Paths)
    ensures var s' := OnRetranM(s, bri, id, requestedId, paths).s; s'.curBatchID == s.curBatchID && (SameBatches(s, s') || BatchAnswered(s, s', bri, id))
    ensures SameBatches(s, OnRetranS(s, id, requestedId, paths).s)
  {
    hide ComputeNextDataId, CleanBatch, BatchAnswered;
    if id !in s.transmitted {
      var s0 := CleanBatch(s.(transmitted := s.transmitted + {id}), bri, id);
      Answering(s, bri, id, s0, OnRetranM(s, bri, id, requestedId, paths).s);
      CleanNext(s.(transmitted := s.transmitted + {id}), bri, id);
    }
  }

  lemma CleanNext(s: RouterState, bri: nat, id: int)
    ensures CleanBatch(s, bri, id).curBatchID == s.curBatchID
  {
  }

  lemma AnswersForward(s: RouterState, bri: nat, id: int, requestedId: int, paths: Paths)
    ensures forall o :: o in OnRetranS(s, id, requestedId, paths).out ==> o.Forward?
    ensures forall o :: o in OnRetranM(s, bri, id, requestedId, paths).out ==> o.Forward?
  {
    hide ComputeNextDataId;
  }

  lemma MadeAnswer(n: nat, out: seq<Output>, s: RouterState, s': RouterState, more: seq<Output>, bri: nat, id: int, b: nat)
    requires RoundsMade(n, out, s, b) && forall o :: o in more ==> o.Forward?
    requires SameBatches(s, s') || BatchAnswered(s, s', bri, id)
    ensures RoundsMade(n, out + more, s', b)
  {
    hide RoundsMade;
    MadeLess(n, out, s, s', more, b);
  }

  lemma MadeYield(n: nat, out: seq<Output>, s: RouterState, s': RouterState, lost: set<int>, b: nat)
    requires RoundsMade(n, out, s, b) && (SameBatches(s, s') || BatchesYield(s, s', lost))
    ensures RoundsMade(n, out + [], s', b)
  {
    hide RoundsMade;
    if BatchesYield(s, s', lost) {
      assert b in s'.batches ==> s'.batches[b] == s.batches[b] - lost;
    }
    MadeLess(n, out, s, s', [], b);
  }

  lemma MadeStep(cfg: Config, out: seq<Output>, s: RouterState, e: Event, b: nat)
    requires RoundsMade(cfg.numRetransRequests, out, s, b) && Enabled(s, e) && !LacksPath(s, e, b)
    ensures RoundsMade(cfg.numRetransRequests, out + Step(cfg, s, e).out, Step(cfg, s, e).s, b)
  {
    hide RoundsMade, OnCapsule, OnRetranSMiss, OnRetranS, OnRetranM, OnNextTimer, OnBatchTimer, OnReport, OnWaitTimer, AskedFor, BatchAdded, BatchAnswered,
         BatchesYield, RecordDropped;
    var n := cfg.numRetransRequests;
    match e
    case Capsule(x, paths) =>
      var ids, sent := CapsuleOpens(cfg, s, x, paths);
      MadeAdded(cfg, out, s, OnCapsule(cfg, s, x, paths).s, ids, false, paths, sent, b);
    case RetranSMiss(x) =>
      MissBatches(s, x);
      MadeAnswer(n, out, s, OnRetranSMiss(s, x), [], 0, x, b);
    case RetranS(x, requestedId, paths) =>
      AnswerBatches(s, 0, x, requestedId, paths);
      AnswersForward(s, 0, x, requestedId, paths);
      MadeAnswer(n, out, s, OnRetranS(s, x, requestedId, paths).s, OnRetranS(s, x, requestedId, paths).out, 0, x, b);
    case RetranM(bri, x, requestedId, paths) =>
      AnswerBatches(s, bri, x, requestedId, paths);
      AnswersForward(s, bri, x, requestedId, paths);
      MadeAnswer(n, out, s, OnRetranM(s, bri, x, requestedId, paths).s, OnRetranM(s, bri, x, requestedId, paths).out, bri, x, b);
    case Report(uid, ids, timeoutKnown) =>
      ReportBatches(s, uid, ids, timeoutKnown);
      MadeYield(n, out, s, OnReport(s, uid, ids, timeoutKnown), s.lostFromPrev + ids, b);
    case NextTimer(x) =>
      MissBatches(s, x);
      MadeAnswer(n, out, s, OnNextTimer(s, x), [], 0, x, b);
    case BatchTimer(rbi, paths) => MadeTimer(cfg, out, s, rbi, paths, b);
    case WaitTimer(k, paths) =>
      var ids := s.waitSets[k] - s.transmitted;
      WaitTimerEffect(cfg, s, k, paths, ids);
      MadeAdded(cfg, out, s, OnWaitTimer(cfg, s, k, paths).s, ids, true, paths, [], b);
      assert AskedFor(cfg, s, ids, true, paths) + [] == AskedFor(cfg, s, ids, true, paths);
  }

  lemma MissBatches(s: RouterState, id: int)
    ensures SameBatches(s, OnRetranSMiss(s, id)) && SameBatches(s, OnNextTimer(s, id))
  {
  }

  lemma {:induction false} MadeRuns(cfg: Config, es: seq<Event>, r: Result, b: nat)
    requires Leads(cfg, es, r) && PathAlways(cfg, es, b)
    ensures RoundsMade(cfg.numRetransRequests, r.out, r.s, b)
  {
    hide Step, RoundsMade, LacksPath;
    if es == [] {
      MadeInitial(cfg.numRetransRequests, b);
    } else {
      var e := es[|es| - 1];
      var r0 :| Leads(cfg, es[..|es| - 1], r0) && Enabled(r0.s, e) && r == Result(Step(cfg, r0.s, e).s, r0.out + Step(cfg, r0.s, e).out);
      MadeRuns(cfg, es[..|es| - 1], r0, b);
      MadeStep(cfg, r0.out, r0.s, e, b);
    }
  }

  lemma MadeInitial(n: nat, b: nat)
    ensures RoundsMade(n, [], INITIAL, b)
  {
  }

  /**
   * Over every run: a batch that still has ids, and whose timer is over, was asked for in exactly as many rounds as are
   * configured, if no round of it lacked a path to ask over.
   */
  lemma RoundsExactly(cfg: Config, es: seq<Event>, r: Result, b: nat)
    requires Leads(cfg, es, r) && PathAlways(cfg, es, b)
    requires b in r.s.batches && r.s.batches[b] != {} && b !in r.s.batchTimers
    ensures Rounds(r.out, b) == cfg.numRetransRequests
  {
    hide Leads, PathAlways, Rounds;
    MadeRuns(cfg, es, r, b);
  }
}
