/** What a router does not fail to do, over whole runs: to send on what comes, and to ask for what is missing. */
module RetransmissionLiveness {
  import opened Common
  import opened RetransmissionSpec
  import opened RetransmissionBudgets
  import opened RetransmissionLimits
  import opened RetransmissionEffects

  // ----------------------------------------------------------------------- capsules sent on

  /** The event brings a capsule, and the router remembers that it came. */
  ghost predicate Remembers(cfg: Config, e: Event) {
    (e.Capsule? && !cfg.retranDisabled) || e.RetranS? || e.RetranM?
  }

  ghost predicate EverCame(cfg: Config, es: seq<Event>, id: int) {
    exists i :: 0 <= i < |es| && Remembers(cfg, es[i]) && es[i].dataId == id
  }

  /** How often the capsule of this id has to be sent on: when it comes for the first time, or without retransmission each time. */
  ghost function Due(cfg: Config, es: seq<Event>, id: int): nat {
    if es == [] then 0
    else
      var init, e := es[..|es| - 1], es[|es| - 1];
      Due(cfg, init, id) + if Brings(e, id) && HasWayOn(e.paths) && !(Remembers(cfg, e) && EverCame(cfg, init, id)) then 1 else 0
  }

  /** What an event sends on. */
  ghost function SentBy(cfg: Config, s: RouterState, e: Event): seq<Output> {
    if (e.Capsule? || e.RetranS? || e.RetranM?) && !(Remembers(cfg, e) && e.dataId in s.transmitted) then SentOn(e) else []
  }

  lemma CapsuleParts(cfg: Config, s: RouterState, id: int, paths: Paths) returns (quiet: seq<Output>)
    ensures forall o :: o in quiet ==> !o.Forward?
    ensures OnCapsule(cfg, s, id, paths).out == quiet + SentBy(cfg, s, Capsule(id, paths))
    ensures OnCapsule(cfg, s, id, paths).s.transmitted == if cfg.retranDisabled then s.transmitted else s.transmitted + {id}
  {
    hide Accept, ComputeNextDataId;
    if cfg.retranDisabled || id in s.transmitted {
      quiet := [];
      assert id in s.transmitted ==> s.transmitted + {id} == s.transmitted;
    } else {
      var s1 := s.(transmitted := s.transmitted + {id});
      AcceptQuiet(cfg, s1, id, paths);
      quiet := Accept(cfg, s1, id, paths).out;
    }
    assert OnCapsule(cfg, s, id, paths).out == quiet + SentBy(cfg, s, Capsule(id, paths));
  }

  /** Other than by a capsule, packets are either sent on or not. */
  lemma OtherParts(cfg: Config, s: RouterState, e: Event) returns (quiet: seq<Output>)
    requires Enabled(s, e) && !e.Capsule?
    ensures forall o :: o in quiet ==> !o.Forward?
    ensures Step(cfg, s, e).out == quiet + SentBy(cfg, s, e)
    ensures Step(cfg, s, e).s.transmitted == s.transmitted + if e.RetranS? || e.RetranM? then {e.dataId} else {}
  {
    hide ComputeNextDataId, OnReport, OnRetranSMiss, OnNextTimer, OnBatchTimer, OnWaitTimer;
    quiet := if e.RetranS? || e.RetranM? then [] else Step(cfg, s, e).out;
    match e
    case RetranSMiss(x) => ReportQuiet(s, 0, {}, false, x);
    case RetranS(x, requestedId, paths) => assert x in s.transmitted ==> s.transmitted + {x} == s.transmitted;
    case RetranM(bri, x, requestedId, paths) => assert x in s.transmitted ==> s.transmitted + {x} == s.transmitted;
    case Report(uid, ids, timeoutKnown) => ReportQuiet(s, uid, ids, timeoutKnown, 0);
    case NextTimer(x) => ReportQuiet(s, 0, {}, false, x);
    case BatchTimer(rbi, paths) => TimersQuiet(cfg, s, rbi, 0, paths);
    case WaitTimer(k, paths) => TimersQuiet(cfg, s, 0, k, paths);
    assert Step(cfg, s, e).out == quiet + SentBy(cfg, s, e);
  }

  lemma StepForwards(cfg: Config, s: RouterState, e: Event, id: int)
    requires Enabled(s, e)
    ensures Forwards(Step(cfg, s, e).out, id) == if Brings(e, id) && HasWayOn(e.paths) && !(Remembers(cfg, e) && id in s.transmitted) then 1 else 0
    ensures Brings(e, id) && HasWayOn(e.paths) && !(Remembers(cfg, e) && id in s.transmitted) ==>
              Forward(id, NameAsked(e), e.paths.downInRspState) in Step(cfg, s, e).out
    ensures id in Step(cfg, s, e).s.transmitted <==> id in s.transmitted || (Remembers(cfg, e) && e.dataId == id)
  {
    hide Forwards, HasWayOn, OnCapsule, OnReport, OnRetranSMiss, OnRetranS, OnRetranM, OnNextTimer, OnBatchTimer, OnWaitTimer;
    var quiet: seq<Output>;
    if e.Capsule? {
      quiet := CapsuleParts(cfg, s, e.dataId, e.paths);
    } else {
      quiet := OtherParts(cfg, s, e);
    }
    ForwardsLast(quiet, SentBy(cfg, s, e), id);
  }

  lemma ForwardsLast(quiet: seq<Output>, sent: seq<Output>, id: int)
    requires |sent| <= 1 && (forall o :: o in quiet ==> !o.Forward?) && forall o :: o in sent ==> o.Forward?
    ensures Forwards(quiet + sent, id) == if sent != [] && sent[0].dataId == id then 1 else 0
    ensures sent != [] ==> sent[0] in quiet + sent
  {
    CountAppend(quiet, sent, ForwardsOf(id));
    CountNone(quiet, ForwardsOf(id));
    if sent != [] {
      assert sent == [sent[0]];
      CountOne(sent[0], ForwardsOf(id));
    }
  }

  /** Over every run: a capsule is sent on exactly as often as it has to be. */
  lemma {:induction false} SentAsDue(cfg: Config, es: seq<Event>, r: Result, id: int)
    requires Leads(cfg, es, r)
    ensures Forwards(r.out, id) == Due(cfg, es, id) && (id in r.s.transmitted <==> EverCame(cfg, es, id))
  {
    if es == [] {
      assert r == Result(INITIAL, []);
    } else {
      var init, e := es[..|es| - 1], es[|es| - 1];
      var r0 :| Leads(cfg, init, r0) && Enabled(r0.s, e) && r == Result(Step(cfg, r0.s, e).s, r0.out + Step(cfg, r0.s, e).out);
      hide *;
      SentAsDue(cfg, init, r0, id);
      StepForwards(cfg, r0.s, e, id);
      CountAppend(r0.out, Step(cfg, r0.s, e).out, ForwardsOf(id));
      ForwardsIs(r.out, id);
      ForwardsIs(r0.out, id);
      ForwardsIs(Step(cfg, r0.s, e).out, id);
      DueStep(cfg, es, id);
    }
  }

  lemma ForwardsIs(out: seq<Output>, id: int)
    ensures Forwards(out, id) == Count(out, ForwardsOf(id))
  {
  }

  lemma DueStep(cfg: Config, es: seq<Event>, id: int)
    requires es != []
    ensures var init, e := es[..|es| - 1], es[|es| - 1];
            && Due(cfg, es, id) == Due(cfg, init, id) + (if Brings(e, id) && HasWayOn(e.paths) && !(Remembers(cfg, e) && EverCame(cfg, init, id)) then 1 else 0)
            && (EverCame(cfg, es, id) <==> EverCame(cfg, init, id) || (Remembers(cfg, e) && e.dataId == id))
  {
    var init, e := es[..|es| - 1], es[|es| - 1];
    if EverCame(cfg, init, id) {
      var i :| 0 <= i < |init| && Remembers(cfg, init[i]) && init[i].dataId == id;
      assert es[i] == init[i];
    }
    if EverCame(cfg, es, id) {
      var i :| 0 <= i < |es| && Remembers(cfg, es[i]) && es[i].dataId == id;
      assert i < |init| ==> init[i] == es[i];
    }
  }

  ghost predicate FirstBringing(es: seq<Event>, i: int, id: int) {
    0 <= i < |es| && Brings(es[i], id) && forall j :: 0 <= j < i ==> !Brings(es[j], id)
  }

  /** The first packet that brought the id came when there was somewhere to send it. */
  ghost predicate CameWithWay(es: seq<Event>, id: int) {
    exists i :: FirstBringing(es, i, id) && HasWayOn(es[i].paths)
  }

  lemma CameStep(cfg: Config, es: seq<Event>, id: int)
    requires es != [] && !cfg.retranDisabled
    ensures var init, e := es[..|es| - 1], es[|es| - 1];
            CameWithWay(es, id) <==> CameWithWay(init, id) || (Brings(e, id) && HasWayOn(e.paths) && !EverCame(cfg, init, id))
  {
    var init, e := es[..|es| - 1], es[|es| - 1];
    assert forall i :: 0 <= i < |init| ==> init[i] == es[i];
    if i :| FirstBringing(init, i, id) && HasWayOn(init[i].paths) {
      assert FirstBringing(es, i, id);
    }
    if i :| FirstBringing(es, i, id) && HasWayOn(es[i].paths) {
      if i < |init| {
        assert FirstBringing(init, i, id);
      } else {
        assert forall j :: 0 <= j < |init| ==> !Brings(init[j], id);
      }
    }
    if Brings(e, id) && HasWayOn(e.paths) && !EverCame(cfg, init, id) {
      forall j | 0 <= j < |init| ensures !Brings(init[j], id) {
        assert Remembers(cfg, init[j]) && init[j].dataId == id ==> EverCame(cfg, init, id);
      }
      assert FirstBringing(es, |es| - 1, id);
    }
  }

  lemma {:induction false} DueOnce(cfg: Config, es: seq<Event>, id: int)
    requires !cfg.retranDisabled
    ensures Due(cfg, es, id) == if CameWithWay(es, id) then 1 else 0
    ensures CameWithWay(es, id) ==> EverCame(cfg, es, id)
  {
    if es == [] {
    } else {
      DueOnce(cfg, es[..|es| - 1], id);
      hide CameWithWay, EverCame, HasWayOn;
      CameStep(cfg, es, id);
      DueStep(cfg, es, id);
    }
  }

  /** Over every run: an id is sent on, once, exactly if the first packet that brought it came when there was somewhere to send it. */
  lemma SentExactly(cfg: Config, es: seq<Event>, r: Result, id: int)
    requires Leads(cfg, es, r) && !cfg.retranDisabled
    ensures Forwards(r.out, id) == if CameWithWay(es, id) then 1 else 0
  {
    hide *;
    SentAsDue(cfg, es, r, id);
    DueOnce(cfg, es, id);
  }

  /** And the packet is the one for which the first arrival asked. */
  lemma {:induction false} SentPacket(cfg: Config, es: seq<Event>, r: Result, i: int, id: int)
    requires Leads(cfg, es, r) && !cfg.retranDisabled && FirstBringing(es, i, id) && HasWayOn(es[i].paths)
    ensures Forward(id, NameAsked(es[i]), es[i].paths.downInRspState) in r.out
  {
    var init, e := es[..|es| - 1], es[|es| - 1];
    var r0 :| Leads(cfg, init, r0) && Enabled(r0.s, e) && r == Result(Step(cfg, r0.s, e).s, r0.out + Step(cfg, r0.s, e).out);
    hide Step, Leads, HasWayOn;
    if i == |init| {
      SentAsDue(cfg, init, r0, id);
      forall j | 0 <= j < |init| ensures !(Remembers(cfg, init[j]) && init[j].dataId == id) {
        assert !Brings(es[j], id);
      }
      StepForwards(cfg, r0.s, e, id);
    } else {
      assert FirstBringing(init, i, id) by { FirstInside(es, i, id); }
      SentPacket(cfg, init, r0, i, id);
    }
  }

  lemma FirstInside(es: seq<Event>, i: int, id: int)
    requires FirstBringing(es, i, id) && i < |es| - 1
    ensures FirstBringing(es[..|es| - 1], i, id) && es[..|es| - 1][i] == es[i]
  {
    assert forall j :: 0 <= j < |es| - 1 ==> es[..|es| - 1][j] == es[j];
  }

  // -------------------------------------------------------------------- what stays asked for

  /** A capsule opens at most one batch. */
  lemma CapsuleOpens(cfg: Config, s: RouterState, id: int, paths: Paths) returns (ids: set<int>, sent: seq<Output>)
    ensures var r := OnCapsule(cfg, s, id, paths);
            BatchAdded(cfg, s, r.s, ids, paths) && r.out == AskedFor(cfg, s, ids, false, paths) + sent && forall o :: o in sent ==> o.Forward?
  {
    hide Accept, CleanWaits, ComputeNextDataId, NewLost, FirstRound, LeavesWaits;
    var r := OnCapsule(cfg, s, id, paths);
    if cfg.retranDisabled || id in s.transmitted {
      ids, sent := {}, r.out;
      assert r.out == [] + sent;
    } else {
      var s0 := s.(transmitted := s.transmitted + {id});
      ids := if id in s0.lostFromPrev then {} else NewLost(s0, id);
      sent := SentOn(Capsule(id, paths));
      Accepting(cfg, s0, id, paths, ids);
      SameRound(cfg, s0, s, ids, paths);
      var s1 := Accept(cfg, s0, id, paths).s;
      Cleaning(CleanWaitForNext(s1, id), id);
      assert SameBatches(s1, r.s);
      SameAdded(cfg, s, s1, r.s, ids, paths);
      assert r.out == AskedFor(cfg, s, ids, false, paths) + sent;
    }
  }

  ghost predicate InBatch(s: RouterState, b: nat, id: int) {
    b in s.batches && id in s.batches[b]
  }

  lemma StillInBatch(cfg: Config, s: RouterState, s': RouterState, ids: set<int>, paths: Paths, b: nat, id: int)
    requires BatchAdded(cfg, s, s', ids, paths) && InBatch(s, b, id) && b < s.curBatchID
    ensures InBatch(s', b, id)
  {
  }

  /** An id in a batch stays there unless its capsule comes, or an upstream router is found to have lost it. */
  lemma KeepsAsking(cfg: Config, s: RouterState, e: Event, b: nat, id: int)
    requires Enabled(s, e) && InBatch(s, b, id) && b < s.curBatchID
    ensures InBatch(Step(cfg, s, e).s, b, id) || Brings(e, id) || (e.Report? && id in s.lostFromPrev + e.ids)
    ensures s.curBatchID <= Step(cfg, s, e).s.curBatchID
  {
    hide OnCapsule, ComputeNextDataId, OnReport, OnWaitTimer, BatchAdded, AskedFor;
    match e
    case Capsule(x, paths) =>
      var ids, sent := CapsuleOpens(cfg, s, x, paths);
      StillInBatch(cfg, s, OnCapsule(cfg, s, x, paths).s, ids, paths, b, id);
      AddedNext(cfg, s, OnCapsule(cfg, s, x, paths).s, ids, paths);
    case RetranSMiss(x) =>
    case RetranS(x, requestedId, paths) =>
    case RetranM(bri, x, requestedId, paths) =>
    case Report(uid, ids, timeoutKnown) =>
      ReportBatches(s, uid, ids, timeoutKnown);
    case NextTimer(x) =>
    case BatchTimer(rbi, paths) =>
    case WaitTimer(k, paths) =>
      var ids := s.waitSets[k] - s.transmitted;
      WaitTimerEffect(cfg, s, k, paths, ids);
      StillInBatch(cfg, s, OnWaitTimer(cfg, s, k, paths).s, ids, paths, b, id);
      AddedNext(cfg, s, OnWaitTimer(cfg, s, k, paths).s, ids, paths);
  }

  lemma AddedNext(cfg: Config, s: RouterState, s': RouterState, ids: set<int>, paths: Paths)
    requires BatchAdded(cfg, s, s', ids, paths)
    ensures s.curBatchID <= s'.curBatchID
  {
  }

  /** A report changes batches only by what it, or an earlier one, says is lost. */
  lemma ReportBatches(s: RouterState, uid: int, ids: set<int>, timeoutKnown: bool)
    ensures var s' := OnReport(s, uid, ids, timeoutKnown);
            && (BatchesYield(s, s', s.lostFromPrev + ids) || SameBatches(s, s')) && s'.curBatchID == s.curBatchID
            && s'.lostFromPrev <= s.lostFromPrev + ids
  {
    hide ComputeNextDataId, MaxOf, Yield, BatchesYield;
    if uid !in s.recentReportUIDs && ids != {} {
      var s2 := Deferred(s.(recentReportUIDs := s.recentReportUIDs + {uid}), ids, timeoutKnown);
      var s3 := s2.(lostFromPrev := s2.lostFromPrev + ids);
      Yielding(s3);
      SameYield(s3, s, Yield(s3), OnReport(s, uid, ids, timeoutKnown), s3.lostFromPrev);
      YieldNext(s, OnReport(s, uid, ids, timeoutKnown), s3.lostFromPrev);
    }
  }

  lemma YieldNext(s: RouterState, s': RouterState, lost: set<int>)
    requires BatchesYield(s, s', lost)
    ensures s'.curBatchID == s.curBatchID
  {
  }

  ghost predicate LeftIn(s: RouterState, k: nat, id: int) {
    k in s.waitTimers && k in s.waitSets && id in s.waitSets[k]
  }

  lemma LeavesOthers(s: RouterState, s': RouterState, x: int, k: nat, id: int)
    requires LeavesWaits(s, s', x) && LeftIn(s, k, id) && x != id
    ensures LeftIn(s', k, id)
  {
    if !SameWaits(s, s') {
      var i :| FirstWith(s, i, x) && LeavesRecord(s, s', i, x);
    }
  }

  lemma SameWaitsLeft(s: RouterState, s': RouterState, k: nat, id: int)
    requires SameWaits(s, s') && LeftIn(s, k, id)
    ensures LeftIn(s', k, id)
  {
  }

  /** What a capsule does to the ids left upstream. */
  lemma CapsuleWaits(cfg: Config, s: RouterState, x: int, paths: Paths)
    ensures var s' := OnCapsule(cfg, s, x, paths).s; (SameWaits(s, s') || LeavesWaits(s, s', x)) && s'.curWaitID == s.curWaitID
    ensures var s' := OnCapsule(cfg, s, x, paths).s; s'.waitSets.Keys == s.waitSets.Keys
  {
    hide Accept, CleanWaits, ComputeNextDataId, LeavesWaits;
    if !cfg.retranDisabled && x !in s.transmitted {
      var s0 := s.(transmitted := s.transmitted + {x});
      var gap := if x in s0.lostFromPrev then {} else NewLost(s0, x);
      Accepting(cfg, s0, x, paths, gap);
      var s1 := CleanWaitForNext(Accept(cfg, s0, x, paths).s, x);
      Cleaning(s1, x);
      var s2 := CleanWaits(s1, x);
      CleanedKeys(s1, s2, x);
      var s' := OnCapsule(cfg, s, x, paths).s;
      assert s' == (if x == s2.lastDataId then WaitForNext(s2, ComputeNextDataId(s2, x)) else s2);
      SameLeaving(s1, s, s2, s', x);
    }
  }

  lemma CleanedKeys(s: RouterState, s': RouterState, x: int)
    requires LeavesWaits(s, s', x)
    ensures s'.waitSets.Keys == s.waitSets.Keys && s'.curWaitID == s.curWaitID
  {
  }

  /** What a report does to them: it may leave more. */
  lemma ReportWaits(s: RouterState, uid: int, ids: set<int>, timeoutKnown: bool)
    ensures var s' := OnReport(s, uid, ids, timeoutKnown);
            SameWaits(s, s') || (s'.curWaitID == s.curWaitID + 1 && s'.waitTimers == s.waitTimers + {s.curWaitID}
                                 && s'.waitSets == s.waitSets[s.curWaitID := ids - s.lostFromPrev])
  {
    hide ComputeNextDataId, MaxOf, Pruned;
  }

  /** The waits stay as they are, and no batch is opened. */
  ghost predicate Light(s: RouterState, s': RouterState) {
    && SameWaits(s, s') && s'.lostFromPrev == s.lostFromPrev && s'.curBatchID == s.curBatchID
    && s'.batches.Keys <= s.batches.Keys && s'.batchTimers.Keys <= s.batchTimers.Keys
  }

  lemma LightClean(s: RouterState, bri: nat, id: int)
    ensures Light(s, CleanBatch(s, bri, id))
  {
  }

  lemma LightRaised(s: RouterState, id: int)
    ensures Light(s, Raised(s, id))
  {
    hide ComputeNextDataId;
  }

  lemma LightTrans(s: RouterState, s1: RouterState, s': RouterState)
    requires Light(s, s1) && Light(s1, s')
    ensures Light(s, s')
  {
  }

  lemma LightAnswer(s: RouterState, bri: nat, id: int, requestedId: int, paths: Paths)
    ensures Light(s, OnRetranM(s, bri, id, requestedId, paths).s)
  {
    hide CleanBatch, Raised, Deliver;
    if id !in s.transmitted {
      var s0 := s.(transmitted := s.transmitted + {id});
      assert Light(s, s0);
      hide Light;
      LightClean(s0, bri, id);
      LightRaised(CleanBatch(s0, bri, id), id);
      LightTrans(s0, CleanBatch(s0, bri, id), Raised(CleanBatch(s0, bri, id), id));
      LightTrans(s, s0, Raised(CleanBatch(s0, bri, id), id));
    }
  }

  lemma LightSingle(s: RouterState, id: int, requestedId: int, paths: Paths)
    ensures Light(s, OnRetranS(s, id, requestedId, paths).s) && Light(s, OnRetranSMiss(s, id)) && Light(s, OnNextTimer(s, id))
  {
    hide ComputeNextDataId;
  }

  lemma LightTimer(s: RouterState, rbi: nat, paths: Paths)
    requires rbi in s.batchTimers
    ensures Light(s, OnBatchTimer(s, rbi, paths).s)
  {
  }

  lemma LightStep(cfg: Config, s: RouterState, e: Event)
    requires Enabled(s, e) && (e.RetranSMiss? || e.RetranS? || e.RetranM? || e.NextTimer? || e.BatchTimer?)
    ensures Light(s, Step(cfg, s, e).s)
  {
    hide Light, OnRetranSMiss, OnRetranS, OnRetranM, OnNextTimer, OnBatchTimer;
    match e
    case RetranSMiss(x) => LightSingle(s, x, x, Paths(false, false, false, false));
    case RetranS(x, requestedId, paths) => LightSingle(s, x, requestedId, paths);
    case RetranM(bri, x, requestedId, paths) => LightAnswer(s, bri, x, requestedId, paths);
    case NextTimer(x) => LightSingle(s, x, x, Paths(false, false, false, false));
    case BatchTimer(rbi, paths) => LightTimer(s, rbi, paths);
  }

  /** An id left to an upstream router stays so, with the timer running, until its capsule comes or the timer fires. */
  lemma KeepsLeft(cfg: Config, s: RouterState, e: Event, k: nat, id: int)
    requires Enabled(s, e) && LeftIn(s, k, id) && k < s.curWaitID
    ensures LeftIn(Step(cfg, s, e).s, k, id) || Brings(e, id) || (e.WaitTimer? && e.k == k)
  {
    hide OnCapsule, OnRetranSMiss, OnRetranS, OnRetranM, OnNextTimer, OnBatchTimer, OnReport, OnWaitTimer, LeftIn, LeavesWaits, AskedFor, BatchAdded, RecordDropped;
    match e
    case Capsule(x, paths) =>
      CapsuleWaits(cfg, s, x, paths);
      var s' := OnCapsule(cfg, s, x, paths).s;
      if SameWaits(s, s') {
        SameWaitsLeft(s, s', k, id);
      } else if x != id {
        LeavesOthers(s, s', x, k, id);
      }
    case Report(uid, ids, timeoutKnown) =>
      ReportWaits(s, uid, ids, timeoutKnown);
      MoreLeft(s, OnReport(s, uid, ids, timeoutKnown), ids, k, id);
    case WaitTimer(j, paths) =>
      WaitTimerEffect(cfg, s, j, paths, s.waitSets[j] - s.transmitted);
      OtherTimer(s, OnWaitTimer(cfg, s, j, paths).s, j, k, id);
    case _ =>
      LightStep(cfg, s, e);
      SameWaitsLeft(s, Step(cfg, s, e).s, k, id);
  }

  lemma MoreLeft(s: RouterState, s': RouterState, ids: set<int>, k: nat, id: int)
    requires LeftIn(s, k, id) && k < s.curWaitID
    requires SameWaits(s, s') || (s'.waitTimers == s.waitTimers + {s.curWaitID} && s'.waitSets == s.waitSets[s.curWaitID := ids - s.lostFromPrev])
    ensures LeftIn(s', k, id)
  {
  }

  lemma OtherTimer(s: RouterState, s': RouterState, j: nat, k: nat, id: int)
    requires LeftIn(s, k, id) && s'.waitTimers == s.waitTimers - {j} && s'.waitSets == s.waitSets
    ensures j != k ==> LeftIn(s', k, id)
  {
  }

  // ---------------------------------------------------------------------------- over runs

  /** Sets and batches are numbered below the next one. */
  ghost predicate Numbers(s: RouterState) {
    (forall k :: k in s.waitSets ==> k < s.curWaitID) && forall b :: b in s.batches || b in s.batchTimers ==> b < s.curBatchID
  }

  lemma NumbersAdded(cfg: Config, s: RouterState, s': RouterState, ids: set<int>, paths: Paths)
    requires Numbers(s) && BatchAdded(cfg, s, s', ids, paths) && s'.waitSets.Keys == s.waitSets.Keys && s'.curWaitID == s.curWaitID
    ensures Numbers(s')
  {
  }

  lemma NumbersStep(cfg: Config, s: RouterState, e: Event)
    requires Numbers(s) && Enabled(s, e)
    ensures Numbers(Step(cfg, s, e).s)
  {
    hide OnCapsule, OnRetranSMiss, OnRetranS, OnRetranM, OnNextTimer, OnBatchTimer, OnReport, OnWaitTimer, LeavesWaits, AskedFor, BatchAdded, RecordDropped;
    match e
    case Capsule(x, paths) =>
      var ids, sent := CapsuleOpens(cfg, s, x, paths);
      CapsuleWaits(cfg, s, x, paths);
      NumbersAdded(cfg, s, OnCapsule(cfg, s, x, paths).s, ids, paths);
    case Report(uid, ids, timeoutKnown) =>
      ReportWaits(s, uid, ids, timeoutKnown);
      ReportBatches(s, uid, ids, timeoutKnown);
    case WaitTimer(k, paths) =>
      var ids := s.waitSets[k] - s.transmitted;
      WaitTimerEffect(cfg, s, k, paths, ids);
      NumbersAdded(cfg, s, OnWaitTimer(cfg, s, k, paths).s, ids, paths);
    case _ =>
      LightStep(cfg, s, e);
  }

  lemma {:induction false} NumbersRuns(cfg: Config, es: seq<Event>, r: Result)
    requires Leads(cfg, es, r)
    ensures Numbers(r.s)
  {
    hide Step, Numbers;
    if es == [] {
      assert Numbers(INITIAL) by { NumbersInitial(); }
    } else {
      var e := es[|es| - 1];
      var r0 :| Leads(cfg, es[..|es| - 1], r0) && Enabled(r0.s, e) && r == Result(Step(cfg, r0.s, e).s, r0.out + Step(cfg, r0.s, e).out);
      NumbersRuns(cfg, es[..|es| - 1], r0);
      NumbersStep(cfg, r0.s, e);
    }
  }

  lemma NumbersInitial()
    ensures Numbers(INITIAL)
  {
  }

  /** Over every run: an id left to an upstream router is still left to it, unless its capsule came or the timer fired. */
  lemma {:induction false} LeftUntil(cfg: Config, es: seq<Event>, r: Result, more: seq<Event>, r': Result, k: nat, id: int)
    requires Leads(cfg, es, r) && LeftIn(r.s, k, id) && Leads(cfg, es + more, r')
    ensures LeftIn(r'.s, k, id) || exists i :: 0 <= i < |more| && (Brings(more[i], id) || (more[i].WaitTimer? && more[i].k == k))
    decreases |more|
  {
    hide Step, LeftIn, Numbers;
    if more == [] {
      assert es + more == es;
      LeadsUnique(cfg, es, r, r');
    } else {
      var init, e := more[..|more| - 1], more[|more| - 1];
      assert (es + more)[..|es + more| - 1] == es + init && (es + more)[|es + more| - 1] == e;
      var r0 :| Leads(cfg, es + init, r0) && Enabled(r0.s, e) && r' == Result(Step(cfg, r0.s, e).s, r0.out + Step(cfg, r0.s, e).out);
      LeftUntil(cfg, es, r, init, r0, k, id);
      if LeftIn(r0.s, k, id) {
        NumbersRuns(cfg, es + init, r0);
        assert k < r0.s.curWaitID by { LeftNumber(r0.s, k, id); }
        KeepsLeft(cfg, r0.s, e, k, id);
        assert more[|more| - 1] == e;
      } else {
        var i :| 0 <= i < |init| && (Brings(init[i], id) || (init[i].WaitTimer? && init[i].k == k));
        assert more[i] == init[i];
      }
    }
  }

  lemma LeftNumber(s: RouterState, k: nat, id: int)
    requires Numbers(s) && LeftIn(s, k, id)
    ensures k < s.curWaitID
  {
  }

  /** The id is named in a report. */
  ghost predicate Reported(es: seq<Event>, id: int) {
    exists i :: 0 <= i < |es| && es[i].Report? && id in es[i].ids
  }

  /** Over every run: an id in a batch is still in it, unless its capsule came or a report named it. */
  lemma {:induction false} AskedUntil(cfg: Config, es: seq<Event>, r: Result, more: seq<Event>, r': Result, b: nat, id: int)
    requires Leads(cfg, es, r) && InBatch(r.s, b, id) && Leads(cfg, es + more, r')
    ensures InBatch(r'.s, b, id) || Reported(es + more, id) || exists i :: 0 <= i < |more| && Brings(more[i], id)
    decreases |more|
  {
    hide Step, InBatch, Numbers, Reported;
    if more == [] {
      assert es + more == es;
      LeadsUnique(cfg, es, r, r');
    } else {
      var init, e := more[..|more| - 1], more[|more| - 1];
      assert (es + more)[..|es + more| - 1] == es + init && (es + more)[|es + more| - 1] == e;
      var r0 :| Leads(cfg, es + init, r0) && Enabled(r0.s, e) && r' == Result(Step(cfg, r0.s, e).s, r0.out + Step(cfg, r0.s, e).out);
      AskedUntil(cfg, es, r, init, r0, b, id);
      ReportedMore(es + more, id);
      if InBatch(r0.s, b, id) {
        NumbersRuns(cfg, es + init, r0);
        assert b < r0.s.curBatchID by { BatchNumber(r0.s, b, id); }
        KeepsAsking(cfg, r0.s, e, b, id);
        assert more[|more| - 1] == e;
        LostReported(cfg, es + init, r0, id);
      } else if i :| 0 <= i < |init| && Brings(init[i], id) {
        assert more[i] == init[i];
      }
    }
  }

  lemma BatchNumber(s: RouterState, b: nat, id: int)
    requires Numbers(s) && InBatch(s, b, id)
    ensures b < s.curBatchID
  {
  }

  lemma ReportedMore(es: seq<Event>, id: int)
    requires es != []
    ensures Reported(es, id) <==> Reported(es[..|es| - 1], id) || (es[|es| - 1].Report? && id in es[|es| - 1].ids)
  {
    var init := es[..|es| - 1];
    assert forall i :: 0 <= i < |init| ==> init[i] == es[i];
    if i :| 0 <= i < |init| && init[i].Report? && id in init[i].ids {
      assert es[i].Report? && id in es[i].ids;
    }
  }

  /** What a router takes to be lost upstream was reported. */
  lemma {:induction false} LostReported(cfg: Config, es: seq<Event>, r: Result, id: int)
    requires Leads(cfg, es, r)
    ensures id in r.s.lostFromPrev ==> Reported(es, id)
  {
    hide Step, Reported;
    if es == [] {
      assert r == Result(INITIAL, []);
    } else {
      var e := es[|es| - 1];
      var r0 :| Leads(cfg, es[..|es| - 1], r0) && Enabled(r0.s, e) && r == Result(Step(cfg, r0.s, e).s, r0.out + Step(cfg, r0.s, e).out);
      LostReported(cfg, es[..|es| - 1], r0, id);
      ReportedMore(es, id);
      LostStep(cfg, r0.s, e);
    }
  }

  lemma LostStep(cfg: Config, s: RouterState, e: Event)
    requires Enabled(s, e)
    ensures Step(cfg, s, e).s.lostFromPrev <= s.lostFromPrev + if e.Report? then e.ids else {}
  {
    hide ComputeNextDataId, Accept, CleanWaits,
         OnReport, OnWaitTimer, OnRetranSMiss, OnRetranS, OnRetranM, OnNextTimer, OnBatchTimer, NewLost, AskedFor, BatchAdded, RecordDropped, LeavesWaits;
    match e
    case Capsule(x, paths) =>
      var s0 := s.(transmitted := s.transmitted + {x});
      Accepting(cfg, s0, x, paths, if x in s0.lostFromPrev then {} else NewLost(s0, x));
      Cleaning(CleanWaitForNext(Accept(cfg, s0, x, paths).s, x), x);
    case Report(uid, ids, timeoutKnown) => ReportBatches(s, uid, ids, timeoutKnown);
    case WaitTimer(k, paths) => WaitTimerEffect(cfg, s, k, paths, s.waitSets[k] - s.transmitted);
    case _ => LightStep(cfg, s, e);
  }
}
