/** How often a router asks for a packet over a whole run, whatever ids the packets carry. */
module RetransmissionBudgets {
  import opened Common
  import opened RetransmissionSpec

  // -------------------------------------------------------------------------------- counting

  ghost function Count(out: seq<Output>, p: Output -> bool): nat {
    if out == [] then 0 else Count(out[..|out| - 1], p) + if p(out[|out| - 1]) then 1 else 0
  }

  lemma {:induction false} CountAppend(out: seq<Output>, more: seq<Output>, p: Output -> bool)
    ensures Count(out + more, p) == Count(out, p) + Count(more, p)
    decreases |more|
  {
    if more == [] {
      assert out + more == out;
    } else {
      var m := more[..|more| - 1];
      assert (out + more)[..|out + more| - 1] == out + m;
      CountAppend(out, m, p);
    }
  }

  /** Openings of a batch with this id, for a report or for a gap found here. */
  ghost function OpensOf(fromReport: bool, id: int): Output -> bool {
    (o: Output) => o.Opened? && o.fromReport == fromReport && id in o.ids
  }

  ghost function Opens(out: seq<Output>, fromReport: bool, id: int): nat {
    Count(out, OpensOf(fromReport, id))
  }

  ghost function RequestsOf(id: int): Output -> bool {
    (o: Output) => o.RequestM? && id in o.ids
  }

  /** Rounds of requests that ask for this id. */
  ghost function Requests(out: seq<Output>, id: int): nat {
    Count(out, RequestsOf(id))
  }

  ghost function RoundsOf(rbi: nat): Output -> bool {
    (o: Output) => o.RequestM? && o.rbi == rbi
  }

  /** Rounds of requests for this batch. */
  ghost function Rounds(out: seq<Output>, rbi: nat): nat {
    Count(out, RoundsOf(rbi))
  }

  ghost function ForwardsOf(id: int): Output -> bool {
    (o: Output) => o.Forward? && o.dataId == id
  }

  /** Times the capsule of this id has been sent on. */
  ghost function Forwards(out: seq<Output>, id: int): nat {
    Count(out, ForwardsOf(id))
  }

  lemma CountOne(o: Output, p: Output -> bool)
    ensures Count([o], p) == if p(o) then 1 else 0
  {
  }

  lemma {:induction false} CountNone(out: seq<Output>, p: Output -> bool)
    requires forall o :: o in out ==> !p(o)
    ensures Count(out, p) == 0
  {
    if out == [] {
    } else {
      assert forall o :: o in out[..|out| - 1] ==> o in out;
      CountNone(out[..|out| - 1], p);
    }
  }

  ghost function OpensInOf(rbi: nat, id: int): Output -> bool {
    (o: Output) => o.Opened? && o.rbi == rbi && id in o.ids
  }

  /** Openings of this batch with this id. */
  ghost function OpensIn(out: seq<Output>, rbi: nat, id: int): nat {
    Count(out, OpensInOf(rbi, id))
  }

  ghost function RequestsInOf(rbi: nat, id: int): Output -> bool {
    (o: Output) => o.RequestM? && o.rbi == rbi && id in o.ids
  }

  /** Rounds of requests for this batch that ask for this id. */
  ghost function RequestsIn(out: seq<Output>, rbi: nat, id: int): nat {
    Count(out, RequestsInOf(rbi, id))
  }

  // --------------------------------------------------------------------------- the invariant

  /** The rounds made for a batch, and those that may still be made for it, are within the budget of `n`. */
  ghost predicate RoundsLeft(n: nat, out: seq<Output>, s: RouterState) {
    && (forall r: nat {:trigger Rounds(out, r)} :: Rounds(out, r) <= n && (r >= s.curBatchID ==> Rounds(out, r) == 0))
    && (forall r :: r in s.batchTimers ==> r < s.curBatchID && Rounds(out, r) + s.batchTimers[r] <= n)
  }

  /** A batch holds, and asks for, only ids it was opened with. */
  ghost predicate Traced(out: seq<Output>, s: RouterState) {
    && (forall id, r {:trigger id in s.batches[r]} :: r in s.batches && id in s.batches[r] ==> OpensIn(out, r, id) >= 1)
    && (forall id, r: nat {:trigger RequestsIn(out, r, id)} :: OpensIn(out, r, id) == 0 ==> RequestsIn(out, r, id) == 0)
    && (forall o :: o in out && !o.Forward? ==> o.rbi < s.curBatchID)
  }

  ghost predicate Budgeted(n: nat, out: seq<Output>, s: RouterState) {
    RoundsLeft(n, out, s) && Traced(out, s)
  }

  /** A state with no more ids in batches and no more timers for them. */
  ghost predicate Lessens(s: RouterState, s': RouterState) {
    && s.curBatchID == s'.curBatchID
    && (forall id, r {:trigger id in s'.batches[r]} :: r in s'.batches && id in s'.batches[r] ==> r in s.batches && id in s.batches[r])
    && (forall r :: r in s'.batchTimers ==> r in s.batchTimers && s'.batchTimers[r] == s.batchTimers[r])
  }

  lemma BudgetedLess(n: nat, out: seq<Output>, s: RouterState, s': RouterState)
    requires Budgeted(n, out, s) && Lessens(s, s')
    ensures Budgeted(n, out, s')
  {
    hide Rounds, OpensIn, RequestsIn;
  }

  // ------------------------------------------------------------------------------- outputs

  lemma QuietIn(out: seq<Output>, more: seq<Output>)
    requires forall o :: o in more ==> o.Forward?
    ensures forall r: nat, id {:trigger OpensIn(out + more, r, id)} :: OpensIn(out + more, r, id) == OpensIn(out, r, id)
    ensures forall r: nat, id {:trigger RequestsIn(out + more, r, id)} :: RequestsIn(out + more, r, id) == RequestsIn(out, r, id)
    ensures forall r: nat {:trigger Rounds(out + more, r)} :: Rounds(out + more, r) == Rounds(out, r)
  {
    forall r: nat, id ensures OpensIn(out + more, r, id) == OpensIn(out, r, id) && RequestsIn(out + more, r, id) == RequestsIn(out, r, id) {
      CountAppend(out, more, OpensInOf(r, id));
      CountNone(more, OpensInOf(r, id));
      CountAppend(out, more, RequestsInOf(r, id));
      CountNone(more, RequestsInOf(r, id));
    }
    forall r: nat ensures Rounds(out + more, r) == Rounds(out, r) {
      CountAppend(out, more, RoundsOf(r));
      CountNone(more, RoundsOf(r));
    }
  }

  lemma MoreIn(out: seq<Output>, o: Output, r: nat, id: int)
    ensures OpensIn(out + [o], r, id) == OpensIn(out, r, id) + if o.Opened? && o.rbi == r && id in o.ids then 1 else 0
    ensures RequestsIn(out + [o], r, id) == RequestsIn(out, r, id) + if o.RequestM? && o.rbi == r && id in o.ids then 1 else 0
    ensures Rounds(out + [o], r) == Rounds(out, r) + if o.RequestM? && o.rbi == r then 1 else 0
  {
    assert (out + [o])[..|out|] == out;
  }

  lemma BudgetedQuiet(n: nat, out: seq<Output>, s: RouterState, more: seq<Output>)
    requires Budgeted(n, out, s) && forall o :: o in more ==> o.Forward?
    ensures Budgeted(n, out + more, s)
  {
    hide Rounds, OpensIn, RequestsIn;
    QuietIn(out, more);
  }

  /** One round, out of the budget of its batch. */
  lemma BudgetedRound(n: nat, out: seq<Output>, s: RouterState, rbi: nat, rest: nat, paths: Paths)
    requires Budgeted(n, out, s) && rbi !in s.batchTimers && rbi < s.curBatchID && Rounds(out, rbi) + rest <= n
    ensures Budgeted(n, out + Round(s, rbi, rest, paths).out, Round(s, rbi, rest, paths).s)
  {
    hide Rounds, OpensIn, RequestsIn;
    var r := Round(s, rbi, rest, paths);
    if r.out == [] {
      assert out + r.out == out;
    } else {
      var o := RequestM(rbi, s.batches[rbi]);
      assert r.out == [o];
      forall b: nat, id
        ensures OpensIn(out + [o], b, id) == OpensIn(out, b, id)
        ensures RequestsIn(out + [o], b, id) == RequestsIn(out, b, id) + if rbi == b && id in o.ids then 1 else 0
        ensures Rounds(out + [o], b) == Rounds(out, b) + if rbi == b then 1 else 0
      {
        MoreIn(out, o, b, id);
      }
      forall b: nat ensures Rounds(out + [o], b) == Rounds(out, b) + if rbi == b then 1 else 0 {
        MoreIn(out, o, b, 0);
      }
    }
  }

  lemma BudgetedOpened(n: nat, out: seq<Output>, s: RouterState, ids: set<int>, flag: bool)
    requires Budgeted(n, out, s)
    ensures var rbi := s.curBatchID;
            var s1, out1 := s.(curBatchID := rbi + 1, batches := s.batches[rbi := ids]), out + [Opened(rbi, flag, ids)];
            Budgeted(n, out1, s1) && rbi !in s1.batchTimers && Rounds(out1, rbi) == 0
  {
    hide Rounds, OpensIn, RequestsIn;
    var o := Opened(s.curBatchID, flag, ids);
    forall b: nat, id
      ensures OpensIn(out + [o], b, id) == OpensIn(out, b, id) + if o.rbi == b && id in ids then 1 else 0
      ensures RequestsIn(out + [o], b, id) == RequestsIn(out, b, id)
    {
      MoreIn(out, o, b, id);
    }
    forall b: nat ensures Rounds(out + [o], b) == Rounds(out, b) {
      MoreIn(out, o, b, 0);
    }
  }

  lemma BudgetedOpen(cfg: Config, out: seq<Output>, s: RouterState, ids: set<int>, flag: bool, paths: Paths)
    requires Budgeted(cfg.numRetransRequests, out, s)
    ensures var r := OpenBatch(cfg, s, ids, flag, paths); Budgeted(cfg.numRetransRequests, out + r.out, r.s)
  {
    hide Budgeted, Round, Rounds;
    var n, rbi := cfg.numRetransRequests, s.curBatchID;
    var s0 := s.(curBatchID := rbi + 1, batches := s.batches[rbi := ids]);
    var out1 := out + [Opened(rbi, flag, ids)];
    BudgetedOpened(n, out, s, ids, flag);
    BudgetedRound(n, out1, s0, rbi, n, paths);
    assert out1 + Round(s0, rbi, n, paths).out == out + ([Opened(rbi, flag, ids)] + Round(s0, rbi, n, paths).out);
  }

  // ------------------------------------------------------------------------------ handlers

  lemma BudgetedAccept(cfg: Config, out: seq<Output>, s: RouterState, id: int, paths: Paths)
    requires Budgeted(cfg.numRetransRequests, out, s)
    ensures var r := Accept(cfg, s, id, paths); Budgeted(cfg.numRetransRequests, out + r.out, r.s)
  {
    hide Budgeted, OpenBatch, NewLost;
    var n, r := cfg.numRetransRequests, Accept(cfg, s, id, paths);
    if id in s.lostFromPrev || id <= Uint32(s.lastDataId + 1) || NewLost(s, id) == {} {
      assert out + r.out == out;
      BudgetedLess(n, out, s, r.s);
    } else {
      var r0 := OpenBatch(cfg, s, NewLost(s, id), false, paths);
      BudgetedOpen(cfg, out, s, NewLost(s, id), false, paths);
      BudgetedLess(n, out + r.out, r0.s, r.s);
    }
  }

  lemma BudgetedCapsule(cfg: Config, out: seq<Output>, s: RouterState, id: int, paths: Paths)
    requires Budgeted(cfg.numRetransRequests, out, s)
    ensures var r := OnCapsule(cfg, s, id, paths); Budgeted(cfg.numRetransRequests, out + r.out, r.s)
  {
    hide Budgeted, Accept, ComputeNextDataId;
    var n, r := cfg.numRetransRequests, OnCapsule(cfg, s, id, paths);
    if cfg.retranDisabled || id in s.transmitted {
      BudgetedQuiet(n, out, s, r.out);
    } else {
      var s1 := s.(transmitted := s.transmitted + {id});
      BudgetedLess(n, out, s, s1);
      BudgetedAccept(cfg, out, s1, id, paths);
      var r1 := Accept(cfg, s1, id, paths);
      BudgetedLess(n, out + r1.out, r1.s, r.s);
      BudgetedQuiet(n, out + r1.out, r.s, Deliver(id, id, paths));
      assert out + (r1.out + Deliver(id, id, paths)) == out + r1.out + Deliver(id, id, paths);
    }
  }

  /** Answers open nothing and ask for nothing. */
  lemma BudgetedAnswer(n: nat, out: seq<Output>, s: RouterState, r: Result)
    requires Budgeted(n, out, s) && Lessens(s, r.s) && forall o :: o in r.out ==> o.Forward?
    ensures Budgeted(n, out + r.out, r.s)
  {
    BudgetedLess(n, out, s, r.s);
    BudgetedQuiet(n, out, r.s, r.out);
  }

  lemma LessensSame(s: RouterState, s': RouterState)
    requires s'.curBatchID == s.curBatchID && s'.batches == s.batches && s'.batchTimers == s.batchTimers
    ensures Lessens(s, s')
  {
  }

  lemma AnswerSLessens(s: RouterState, id: int, requestedId: int, paths: Paths)
    ensures Lessens(s, OnRetranS(s, id, requestedId, paths).s)
    ensures forall o :: o in OnRetranS(s, id, requestedId, paths).out ==> o.Forward?
  {
    hide ComputeNextDataId, Lessens;
    LessensSame(s, OnRetranS(s, id, requestedId, paths).s);
  }

  lemma CleanBatchLessens(s: RouterState, bri: nat, id: int)
    ensures Lessens(s, CleanBatch(s, bri, id))
  {
  }

  lemma LessensRest(s: RouterState, s1: RouterState, s': RouterState)
    requires Lessens(s, s1) && s'.curBatchID == s1.curBatchID && s'.batches == s1.batches && s'.batchTimers == s1.batchTimers
    ensures Lessens(s, s')
  {
  }

  lemma AnswerMLessens(s: RouterState, bri: nat, id: int, requestedId: int, paths: Paths)
    ensures Lessens(s, OnRetranM(s, bri, id, requestedId, paths).s)
    ensures forall o :: o in OnRetranM(s, bri, id, requestedId, paths).out ==> o.Forward?
  {
    hide ComputeNextDataId, Lessens, CleanBatch;
    var s' := OnRetranM(s, bri, id, requestedId, paths).s;
    if id in s.transmitted {
      LessensSame(s, s');
    } else {
      var s0 := s.(transmitted := s.transmitted + {id});
      CleanBatchLessens(s0, bri, id);
      LessensSame(s, s0);
      LessensTrans(s, s0, CleanBatch(s0, bri, id));
      LessensRest(s, CleanBatch(s0, bri, id), s');
    }
  }

  lemma LessensTrans(s: RouterState, s': RouterState, s'': RouterState)
    requires Lessens(s, s') && Lessens(s', s'')
    ensures Lessens(s, s'')
  {
  }

  lemma WaitLessens(s: RouterState, id: int)
    ensures Lessens(s, OnRetranSMiss(s, id)) && Lessens(s, OnNextTimer(s, id))
  {
    hide Lessens;
    LessensSame(s, OnRetranSMiss(s, id));
    LessensSame(s, OnNextTimer(s, id));
  }

  lemma YieldLessens(s: RouterState)
    ensures Lessens(s, Yield(s))
  {
  }

  lemma ReportLessens(s: RouterState, uid: int, ids: set<int>, timeoutKnown: bool)
    ensures Lessens(s, OnReport(s, uid, ids, timeoutKnown))
  {
    hide ComputeNextDataId, MaxOf, Lessens, Yield;
    var s' := OnReport(s, uid, ids, timeoutKnown);
    if uid in s.recentReportUIDs || ids == {} {
      LessensSame(s, s');
    } else {
      var s2 := Deferred(s.(recentReportUIDs := s.recentReportUIDs + {uid}), ids, timeoutKnown);
      var s3 := s2.(lostFromPrev := s2.lostFromPrev + ids);
      LessensSame(s, s3);
      YieldLessens(s3);
      LessensTrans(s, s3, Yield(s3));
      LessensRest(s, Yield(s3), s');
    }
  }

  lemma BudgetedTimer(cfg: Config, out: seq<Output>, s: RouterState, rbi: nat, paths: Paths)
    requires Budgeted(cfg.numRetransRequests, out, s) && rbi in s.batchTimers
    ensures var r := OnBatchTimer(s, rbi, paths); Budgeted(cfg.numRetransRequests, out + r.out, r.s)
  {
    hide Traced, Rounds, Round;
    var s1 := s.(batchTimers := s.batchTimers - {rbi});
    BudgetedLess(cfg.numRetransRequests, out, s, s1);
    BudgetedRound(cfg.numRetransRequests, out, s1, rbi, s.batchTimers[rbi], paths);
  }

  lemma BudgetedWait(cfg: Config, out: seq<Output>, s: RouterState, k: nat, paths: Paths)
    requires Budgeted(cfg.numRetransRequests, out, s) && k in s.waitSets
    ensures var r := OnWaitTimer(cfg, s, k, paths); Budgeted(cfg.numRetransRequests, out + r.out, r.s)
  {
    hide Budgeted, OpenBatch;
    var n := cfg.numRetransRequests;
    var s1 := s.(waitTimers := s.waitTimers - {k}, waitRecords := WithoutEvent(s.waitRecords, Uint32(k)));
    var ids := s.waitSets[k] - s.transmitted;
    BudgetedLess(n, out, s, s1);
    assert out + [] == out;
    if ids != {} {
      BudgetedOpen(cfg, out, s1, ids, true, paths);
    }
  }

  lemma BudgetedStep(cfg: Config, out: seq<Output>, s: RouterState, e: Event)
    requires Budgeted(cfg.numRetransRequests, out, s) && Enabled(s, e)
    ensures Budgeted(cfg.numRetransRequests, out + Step(cfg, s, e).out, Step(cfg, s, e).s)
  {
    hide Budgeted, Lessens, OnCapsule, OnRetranSMiss, OnRetranS, OnRetranM, OnReport, OnNextTimer, OnBatchTimer, OnWaitTimer;
    var n, r := cfg.numRetransRequests, Step(cfg, s, e);
    match e
    case Capsule(id, paths) => BudgetedCapsule(cfg, out, s, id, paths);
    case RetranSMiss(id) =>
      WaitLessens(s, id);
      BudgetedAnswer(n, out, s, r);
    case RetranS(id, requestedId, paths) =>
      AnswerSLessens(s, id, requestedId, paths);
      BudgetedAnswer(n, out, s, r);
    case RetranM(bri, id, requestedId, paths) =>
      AnswerMLessens(s, bri, id, requestedId, paths);
      BudgetedAnswer(n, out, s, r);
    case Report(uid, ids, timeoutKnown) =>
      ReportLessens(s, uid, ids, timeoutKnown);
      BudgetedAnswer(n, out, s, r);
    case NextTimer(id) =>
      WaitLessens(s, id);
      BudgetedAnswer(n, out, s, r);
    case BatchTimer(rbi, paths) => BudgetedTimer(cfg, out, s, rbi, paths);
    case WaitTimer(k, paths) => BudgetedWait(cfg, out, s, k, paths);
  }

  lemma {:induction false} BudgetedRuns(cfg: Config, es: seq<Event>, r: Result)
    requires Leads(cfg, es, r)
    ensures Budgeted(cfg.numRetransRequests, r.out, r.s)
  {
    hide Step, Budgeted;
    if es == [] {
      assert Budgeted(cfg.numRetransRequests, [], INITIAL) by { BudgetedInitial(cfg.numRetransRequests); }
    } else {
      var e := es[|es| - 1];
      var r0 :| Leads(cfg, es[..|es| - 1], r0) && Enabled(r0.s, e) && r == Result(Step(cfg, r0.s, e).s, r0.out + Step(cfg, r0.s, e).out);
      BudgetedRuns(cfg, es[..|es| - 1], r0);
      BudgetedStep(cfg, r0.out, r0.s, e);
    }
  }

  lemma BudgetedInitial(n: nat)
    ensures Budgeted(n, [], INITIAL)
  {
  }

  /** In every run, each batch is broadcast in at most as many rounds as are configured. */
  lemma RoundsBounded(cfg: Config, es: seq<Event>, r: Result, rbi: nat)
    requires Leads(cfg, es, r)
    ensures Rounds(r.out, rbi) <= cfg.numRetransRequests
  {
    hide Leads, Traced, Rounds;
    BudgetedRuns(cfg, es, r);
  }

  // --------------------------------------------------------------- summing over all batches

  ghost function InOf(opens: bool, rbi: nat, id: int): Output -> bool {
    if opens then OpensInOf(rbi, id) else RequestsInOf(rbi, id)
  }

  ghost function AllOf(opens: bool, id: int): Output -> bool {
    (o: Output) => (if opens then o.Opened? else o.RequestM?) && id in o.ids
  }

  /** Openings, or requests, with this id in the batches below `k`. */
  ghost function SumIn(out: seq<Output>, opens: bool, id: int, k: nat): nat {
    if k == 0 then 0 else SumIn(out, opens, id, k - 1) + Count(out, InOf(opens, k - 1, id))
  }

  lemma {:induction false} SumInNone(opens: bool, id: int, k: nat)
    ensures SumIn([], opens, id, k) == 0
  {
    if k == 0 {
    } else {
      SumInNone(opens, id, k - 1);
    }
  }

  lemma {:induction false} SumInMore(out: seq<Output>, o: Output, opens: bool, id: int, k: nat)
    ensures SumIn(out + [o], opens, id, k) == SumIn(out, opens, id, k) + if AllOf(opens, id)(o) && o.rbi < k then 1 else 0
  {
    if k == 0 {
    } else {
      SumInMore(out, o, opens, id, k - 1);
      assert (out + [o])[..|out|] == out;
    }
  }

  /** Each opening, and each request, is for one batch. */
  lemma {:induction false} SumInAll(out: seq<Output>, opens: bool, id: int, k: nat)
    requires forall o :: o in out && !o.Forward? ==> o.rbi < k
    ensures SumIn(out, opens, id, k) == Count(out, AllOf(opens, id))
  {
    if out == [] {
      SumInNone(opens, id, k);
    } else {
      var init, o := out[..|out| - 1], out[|out| - 1];
      assert out == init + [o];
      SumInAll(init, opens, id, k);
      SumInMore(init, o, opens, id, k);
    }
  }

  lemma {:induction false} OpensSum(out: seq<Output>, id: int)
    ensures Count(out, AllOf(true, id)) == Opens(out, false, id) + Opens(out, true, id)
  {
    if out == [] {
    } else {
      OpensSum(out[..|out| - 1], id);
    }
  }

  lemma {:induction false} RequestsSum(out: seq<Output>, id: int)
    ensures Count(out, AllOf(false, id)) == Requests(out, id)
  {
    if out == [] {
    } else {
      RequestsSum(out[..|out| - 1], id);
    }
  }

  lemma {:induction false} FewerRequests(out: seq<Output>, rbi: nat, id: int)
    ensures RequestsIn(out, rbi, id) <= Rounds(out, rbi)
  {
    if out == [] {
    } else {
      FewerRequests(out[..|out| - 1], rbi, id);
    }
  }

  lemma {:induction false} SumInBounded(n: nat, out: seq<Output>, s: RouterState, id: int, k: nat)
    requires Budgeted(n, out, s)
    ensures SumIn(out, false, id, k) <= n * SumIn(out, true, id, k)
  {
    if k == 0 {
    } else {
      SumInBounded(n, out, s, id, k - 1);
      FewerRequests(out, k - 1, id);
      var opens, requests := OpensIn(out, k - 1, id), RequestsIn(out, k - 1, id);
      assert Rounds(out, k - 1) <= n && (opens == 0 ==> requests == 0);
      hide *;
      AtMostTimes(n, requests, opens, SumIn(out, true, id, k - 1));
      SumInStep(out, id, k);
    }
  }

  lemma SumInStep(out: seq<Output>, id: int, k: nat)
    requires k > 0
    ensures SumIn(out, false, id, k) == SumIn(out, false, id, k - 1) + RequestsIn(out, k - 1, id)
    ensures SumIn(out, true, id, k) == SumIn(out, true, id, k - 1) + OpensIn(out, k - 1, id)
  {
  }

  lemma AtMostTimes(n: nat, requests: nat, opens: nat, rest: nat)
    requires requests <= n && (opens == 0 ==> requests == 0)
    ensures n * rest + requests <= n * (rest + opens)
  {
    if opens > 0 {
      assert n * (rest + opens) == n * rest + n * opens && n * opens >= n;
    }
  }

  lemma BudgetedNumbered(n: nat, out: seq<Output>, s: RouterState)
    requires Budgeted(n, out, s)
    ensures forall o :: o in out && !o.Forward? ==> o.rbi < s.curBatchID
  {
    hide RoundsLeft;
  }

  /** In every run, an id is asked for in at most as many rounds as the batches it was put into may have. */
  lemma RequestsCovered(cfg: Config, es: seq<Event>, r: Result, id: int)
    requires Leads(cfg, es, r)
    ensures Requests(r.out, id) <= cfg.numRetransRequests * (Opens(r.out, false, id) + Opens(r.out, true, id))
  {
    hide *;
    BudgetedRuns(cfg, es, r);
    BudgetedNumbered(cfg.numRetransRequests, r.out, r.s);
    SumInBounded(cfg.numRetransRequests, r.out, r.s, id, r.s.curBatchID);
    SumInAll(r.out, true, id, r.s.curBatchID);
    SumInAll(r.out, false, id, r.s.curBatchID);
    OpensSum(r.out, id);
    RequestsSum(r.out, id);
  }
}
