/** A capsule is sent on once, and the exact limits of what a router guarantees. */
module RetransmissionLimits {
  import opened Common
  import opened RetransmissionSpec
  import opened RetransmissionBudgets
  import opened RetransmissionSafety

  // ------------------------------------------------------------------------ sent on only once

  ghost predicate SentOnce(out: seq<Output>, transmitted: set<int>) {
    forall id {:trigger Forwards(out, id)} :: Forwards(out, id) <= 1 && (Forwards(out, id) == 1 ==> id in transmitted)
  }

  /** Outside RSP state a capsule is sent on under its own id. */
  ghost predicate OwnNames(out: seq<Output>) {
    forall o :: o in out && o.Forward? && !o.onRsp ==> o.name == o.dataId
  }

  lemma ForwardsNone(out: seq<Output>, more: seq<Output>, id: int)
    requires forall o :: o in more ==> !o.Forward?
    ensures Forwards(out + more, id) == Forwards(out, id)
  {
    CountAppend(out, more, ForwardsOf(id));
    CountNone(more, ForwardsOf(id));
  }

  lemma OpenBatchQuiet(cfg: Config, s: RouterState, ids: set<int>, fromReport: bool, paths: Paths)
    ensures forall o :: o in OpenBatch(cfg, s, ids, fromReport, paths).out ==> !o.Forward?
    ensures OpenBatch(cfg, s, ids, fromReport, paths).s.transmitted == s.transmitted
  {
  }

  lemma AcceptQuiet(cfg: Config, s: RouterState, id: int, paths: Paths)
    ensures forall o :: o in Accept(cfg, s, id, paths).out ==> !o.Forward?
    ensures Accept(cfg, s, id, paths).s.transmitted == s.transmitted
  {
    hide OpenBatch, NewLost;
    OpenBatchQuiet(cfg, s, NewLost(s, id), false, paths);
  }

  /** What is put out for a received id: nothing sent on before, and at most once now. */
  lemma SentDeliver(out: seq<Output>, quiet: seq<Output>, transmitted: set<int>, id: int, requestedId: int, paths: Paths)
    requires SentOnce(out, transmitted) && OwnNames(out) && id !in transmitted && forall o :: o in quiet ==> !o.Forward?
    ensures SentOnce(out + (quiet + Deliver(id, requestedId, paths)), transmitted + {id})
    ensures OwnNames(out + (quiet + Deliver(id, requestedId, paths)))
  {
    hide Forwards;
    var out1, d := out + quiet, Deliver(id, requestedId, paths);
    assert out + (quiet + d) == out1 + d;
    forall x ensures Forwards(out1 + d, x) <= Forwards(out, x) + if x == id then 1 else 0 {
      ForwardsNone(out, quiet, x);
      ForwardsOne(out1, d, id, x);
    }
  }

  lemma ForwardsOne(out: seq<Output>, d: seq<Output>, id: int, x: int)
    requires |d| <= 1 && forall o :: o in d ==> o.Forward? && o.dataId == id
    ensures Forwards(out + d, x) <= Forwards(out, x) + if x == id then 1 else 0
  {
    CountAppend(out, d, ForwardsOf(x));
    if |d| == 1 {
      assert d == [d[0]] && d[0] in d;
      CountOne(d[0], ForwardsOf(x));
    }
  }

  lemma SentCapsule(cfg: Config, out: seq<Output>, s: RouterState, id: int, paths: Paths)
    requires SentOnce(out, s.transmitted) && OwnNames(out) && !cfg.retranDisabled
    ensures SentOnce(out + OnCapsule(cfg, s, id, paths).out, OnCapsule(cfg, s, id, paths).s.transmitted)
    ensures OwnNames(out + OnCapsule(cfg, s, id, paths).out)
  {
    hide SentOnce, OwnNames, Accept, Deliver, ComputeNextDataId;
    assert out + [] == out;
    if id !in s.transmitted {
      var s1 := s.(transmitted := s.transmitted + {id});
      AcceptQuiet(cfg, s1, id, paths);
      SentDeliver(out, Accept(cfg, s1, id, paths).out, s.transmitted, id, id, paths);
      assert OnCapsule(cfg, s, id, paths).s.transmitted == s.transmitted + {id};
    }
  }

  lemma SentAnswer(out: seq<Output>, s: RouterState, bri: nat, id: int, requestedId: int, paths: Paths)
    requires SentOnce(out, s.transmitted) && OwnNames(out)
    ensures SentOnce(out + OnRetranS(s, id, requestedId, paths).out, OnRetranS(s, id, requestedId, paths).s.transmitted)
    ensures OwnNames(out + OnRetranS(s, id, requestedId, paths).out)
    ensures SentOnce(out + OnRetranM(s, bri, id, requestedId, paths).out, OnRetranM(s, bri, id, requestedId, paths).s.transmitted)
    ensures OwnNames(out + OnRetranM(s, bri, id, requestedId, paths).out)
  {
    hide SentOnce, OwnNames, Deliver, ComputeNextDataId;
    assert out + [] == out;
    if id !in s.transmitted {
      SentDeliver(out, [], s.transmitted, id, requestedId, paths);
      assert [] + Deliver(id, requestedId, paths) == Deliver(id, requestedId, paths);
    }
  }

  lemma SentQuiet(out: seq<Output>, transmitted: set<int>, quiet: seq<Output>)
    requires SentOnce(out, transmitted) && OwnNames(out) && forall o :: o in quiet ==> !o.Forward?
    ensures SentOnce(out + quiet, transmitted) && OwnNames(out + quiet)
  {
    hide Forwards;
    forall x ensures Forwards(out + quiet, x) == Forwards(out, x) {
      ForwardsNone(out, quiet, x);
    }
  }

  lemma TimersQuiet(cfg: Config, s: RouterState, rbi: nat, k: nat, paths: Paths)
    ensures rbi in s.batchTimers ==> OnBatchTimer(s, rbi, paths).s.transmitted == s.transmitted && forall o :: o in OnBatchTimer(s, rbi, paths).out ==> !o.Forward?
    ensures k in s.waitSets ==> OnWaitTimer(cfg, s, k, paths).s.transmitted == s.transmitted && forall o :: o in OnWaitTimer(cfg, s, k, paths).out ==> !o.Forward?
  {
  }

  lemma ReportQuiet(s: RouterState, uid: int, ids: set<int>, timeoutKnown: bool, id: int)
    ensures OnReport(s, uid, ids, timeoutKnown).transmitted == s.transmitted
    ensures OnRetranSMiss(s, id).transmitted == s.transmitted && OnNextTimer(s, id).transmitted == s.transmitted
  {
    hide ComputeNextDataId, Pruned;
  }

  lemma SentStep(cfg: Config, out: seq<Output>, s: RouterState, e: Event)
    requires SentOnce(out, s.transmitted) && OwnNames(out) && !cfg.retranDisabled && Enabled(s, e)
    ensures SentOnce(out + Step(cfg, s, e).out, Step(cfg, s, e).s.transmitted) && OwnNames(out + Step(cfg, s, e).out)
  {
    hide SentOnce, OwnNames, OnCapsule, OnRetranSMiss, OnRetranS, OnRetranM, OnReport, OnNextTimer, OnBatchTimer, OnWaitTimer;
    assert out + [] == out;
    match e
    case Capsule(id, paths) => SentCapsule(cfg, out, s, id, paths);
    case RetranSMiss(id) => ReportQuiet(s, 0, {}, false, id);
    case RetranS(id, requestedId, paths) => SentAnswer(out, s, 0, id, requestedId, paths);
    case RetranM(bri, id, requestedId, paths) => SentAnswer(out, s, bri, id, requestedId, paths);
    case Report(uid, ids, timeoutKnown) => ReportQuiet(s, uid, ids, timeoutKnown, 0);
    case NextTimer(id) => ReportQuiet(s, 0, {}, false, id);
    case BatchTimer(rbi, paths) =>
      TimersQuiet(cfg, s, rbi, 0, paths);
      SentQuiet(out, s.transmitted, OnBatchTimer(s, rbi, paths).out);
    case WaitTimer(k, paths) =>
      TimersQuiet(cfg, s, 0, k, paths);
      SentQuiet(out, s.transmitted, OnWaitTimer(cfg, s, k, paths).out);
  }

  lemma {:induction false} SentRuns(cfg: Config, es: seq<Event>, r: Result)
    requires Leads(cfg, es, r) && !cfg.retranDisabled
    ensures SentOnce(r.out, r.s.transmitted) && OwnNames(r.out)
  {
    hide Step, SentOnce, OwnNames;
    if es == [] {
      SentInitial();
    } else {
      var e := es[|es| - 1];
      var r0 :| Leads(cfg, es[..|es| - 1], r0) && Enabled(r0.s, e) && r == Result(Step(cfg, r0.s, e).s, r0.out + Step(cfg, r0.s, e).out);
      SentRuns(cfg, es[..|es| - 1], r0);
      SentStep(cfg, r0.out, r0.s, e);
    }
  }

  lemma SentInitial()
    ensures SentOnce([], INITIAL.transmitted) && OwnNames([])
  {
  }

  lemma {:induction false} CountTwo(out: seq<Output>, p: Output -> bool, i: nat, j: nat)
    requires i < j < |out| && p(out[i]) && p(out[j])
    ensures Count(out, p) >= 2
  {
    var out' := out[..|out| - 1];
    if j == |out'| {
      CountSome(out', p, i);
    } else {
      CountTwo(out', p, i, j);
    }
  }

  lemma {:induction false} CountSome(out: seq<Output>, p: Output -> bool, i: nat)
    requires i < |out| && p(out[i])
    ensures Count(out, p) >= 1
  {
    var out' := out[..|out| - 1];
    if i == |out'| {
    } else {
      CountSome(out', p, i);
    }
  }

  /**
   * Whether it comes as a capsule or as an answer, a data id is sent on at most once in a whole run; and outside
   * RSP state no two packets go out under one name.
   */
  lemma ForwardedOnce(cfg: Config, es: seq<Event>, r: Result, i: nat, j: nat)
    requires Leads(cfg, es, r) && !cfg.retranDisabled && i < j < |r.out| && r.out[i].Forward? && r.out[j].Forward?
    ensures r.out[i].dataId != r.out[j].dataId
    ensures !r.out[i].onRsp && !r.out[j].onRsp ==> r.out[i].name != r.out[j].name
  {
    hide Leads;
    SentRuns(cfg, es, r);
    assert r.out[i] in r.out && r.out[j] in r.out;
    assert Forwards(r.out, r.out[i].dataId) <= 1;
    if r.out[i].dataId == r.out[j].dataId {
      CountTwo(r.out, ForwardsOf(r.out[i].dataId), i, j);
    }
  }

  // ------------------------------------------------------------------------ names coincide

  /** The id an event brings, if it brings a capsule. */
  ghost predicate Brings(e: Event, id: int) {
    (e.Capsule? || e.RetranS? || e.RetranM?) && e.dataId == id
  }

  /** The id in whose name it is to be sent on: in RSP state, the one that was asked for. */
  ghost function NameAsked(e: Event): int
    requires e.Capsule? || e.RetranS? || e.RetranM?
  {
    if !e.Capsule? && e.paths.downInRspState then e.requestedId else e.dataId
  }

  /** The name asked for by the first packet that brought the id. */
  ghost function FirstName(es: seq<Event>, id: int): Option<int> {
    if es == [] then None
    else
      var first, e := FirstName(es[..|es| - 1], id), es[|es| - 1];
      if first.Some? then first else if Brings(e, id) then Some(NameAsked(e)) else None
  }

  /** What was received is what was brought, and what was sent on has the name asked for first. */
  ghost predicate Named(es: seq<Event>, out: seq<Output>, transmitted: set<int>) {
    && (forall id {:trigger FirstName(es, id)} :: FirstName(es, id).Some? <==> id in transmitted)
    && (forall o :: o in out && o.Forward? ==> FirstName(es, o.dataId) == Some(o.name))
  }

  /** What a step sends on: at most the capsule it receives, under the name asked for. */
  lemma StepSends(cfg: Config, s: RouterState, e: Event)
    requires Enabled(s, e) && !cfg.retranDisabled
    ensures forall id :: id in Step(cfg, s, e).s.transmitted <==> id in s.transmitted || Brings(e, id)
    ensures forall o :: o in Step(cfg, s, e).out && o.Forward? ==> Brings(e, o.dataId) && o.dataId !in s.transmitted && o.name == NameAsked(e)
  {
    hide OnReport, OnRetranSMiss, OnNextTimer, OnBatchTimer, OnWaitTimer, Accept, Deliver, ComputeNextDataId;
    match e
    case Capsule(id, paths) =>
      AcceptQuiet(cfg, s.(transmitted := s.transmitted + {id}), id, paths);
      DeliverName(id, id, paths);
    case RetranSMiss(id) => ReportQuiet(s, 0, {}, false, id);
    case RetranS(id, requestedId, paths) => DeliverName(id, requestedId, paths);
    case RetranM(bri, id, requestedId, paths) => DeliverName(id, requestedId, paths);
    case Report(uid, ids, timeoutKnown) => ReportQuiet(s, uid, ids, timeoutKnown, 0);
    case NextTimer(id) => ReportQuiet(s, 0, {}, false, id);
    case BatchTimer(rbi, paths) => TimersQuiet(cfg, s, rbi, 0, paths);
    case WaitTimer(k, paths) => TimersQuiet(cfg, s, 0, k, paths);
  }

  lemma DeliverName(id: int, requestedId: int, paths: Paths)
    ensures forall o :: o in Deliver(id, requestedId, paths) ==>
              o.Forward? && o.dataId == id && o.name == if paths.downInRspState then requestedId else id
  {
  }

  lemma {:induction false} NamedRuns(cfg: Config, es: seq<Event>, r: Result)
    requires Leads(cfg, es, r) && !cfg.retranDisabled
    ensures Named(es, r.out, r.s.transmitted)
  {
    if es == [] {
      assert r == Result(INITIAL, []);
    } else {
      var e := es[|es| - 1];
      var r0 :| Leads(cfg, es[..|es| - 1], r0) && Enabled(r0.s, e) && r == Result(Step(cfg, r0.s, e).s, r0.out + Step(cfg, r0.s, e).out);
      hide *;
      NamedRuns(cfg, es[..|es| - 1], r0);
      StepSends(cfg, r0.s, e);
      NamedStep(es, r0.out, r0.s.transmitted, Step(cfg, r0.s, e).out, r.s.transmitted);
    }
  }

  lemma NamedStep(es: seq<Event>, out: seq<Output>, transmitted: set<int>, more: seq<Output>, transmitted': set<int>)
    requires es != [] && Named(es[..|es| - 1], out, transmitted)
    requires forall id :: id in transmitted' <==> id in transmitted || Brings(es[|es| - 1], id)
    requires forall o :: o in more && o.Forward? ==> Brings(es[|es| - 1], o.dataId) && o.dataId !in transmitted && o.name == NameAsked(es[|es| - 1])
    ensures Named(es, out + more, transmitted')
  {
    var init := es[..|es| - 1];
    forall o | o in out + more && o.Forward? ensures FirstName(es, o.dataId) == Some(o.name) {
      if o in out {
        assert FirstName(init, o.dataId) == Some(o.name);
      }
    }
  }

  /** Exactly when two packets sent on have one name: when the packets that first brought their ids asked for one name. */
  lemma SameName(cfg: Config, es: seq<Event>, r: Result, i: nat, j: nat)
    requires Leads(cfg, es, r) && !cfg.retranDisabled && i < j < |r.out| && r.out[i].Forward? && r.out[j].Forward?
    ensures r.out[i].name == r.out[j].name <==> FirstName(es, r.out[i].dataId) == FirstName(es, r.out[j].dataId)
    ensures FirstName(es, r.out[i].dataId).Some? && FirstName(es, r.out[j].dataId).Some?
  {
    hide Leads;
    NamedRuns(cfg, es, r);
    assert r.out[i] in r.out && r.out[j] in r.out;
  }

  /** In RSP state two answers to requests for one id go out under one name. */
  lemma SameNameOnRsp(cfg: Config) returns (es: seq<Event>, r: Result)
    ensures Leads(cfg, es, r) && r.out == [Forward(1, 5, true), Forward(2, 5, true)]
  {
    var paths := Paths(true, true, false, false);
    var e1, e2 := RetranM(0, 1, 5, paths), RetranM(0, 2, 5, paths);
    var r1 := Step(cfg, INITIAL, e1);
    var r2 := Step(cfg, r1.s, e2);
    es := [] + [e1] + [e2];
    r := Result(r2.s, [] + r1.out + r2.out);
    LeadsStep(cfg, [], Result(INITIAL, []), e1);
    LeadsStep(cfg, [] + [e1], Result(r1.s, [] + r1.out), e2);
  }

  lemma LeadsStep(cfg: Config, es: seq<Event>, r: Result, e: Event)
    requires Leads(cfg, es, r) && Enabled(r.s, e)
    ensures Leads(cfg, es + [e], Result(Step(cfg, r.s, e).s, r.out + Step(cfg, r.s, e).out))
  {
    hide Step;
    var es' := es + [e];
    assert es'[|es'| - 1] == e && es'[..|es'| - 1] == es;
    assert Leads(cfg, es'[..|es'| - 1], r);
  }

  // --------------------------------------------------------- if the reserved id is carried

  /** The reserved id can bring a router to claim ids again: two batches with one id. */
  lemma BatchesOverlap(cfg: Config) returns (es: seq<Event>, r: Result)
    requires !cfg.retranDisabled
    ensures Leads(cfg, es, r) && 0 in r.s.batches && 1 in r.s.batches && 1 in r.s.batches[0] && 1 in r.s.batches[1]
  {
    var paths := Paths(false, false, false, false);
    var e1, e2, e3 := Capsule(3, paths), RetranM(9, UINT_MAX, UINT_MAX, paths), Capsule(5, paths);
    var r1 := Step(cfg, INITIAL, e1);
    FirstGap(cfg, paths);
    var r2 := Step(cfg, r1.s, e2);
    AfterReserved(cfg, r1.s, paths);
    var r3 := Step(cfg, r2.s, e3);
    SecondGap(cfg, r2.s, paths);
    hide OnCapsule, OnRetranM;
    es := [] + [e1] + [e2] + [e3];
    r := Result(r3.s, [] + r1.out + r2.out + r3.out);
    LeadsStep(cfg, [], Result(INITIAL, []), e1);
    LeadsStep(cfg, [] + [e1], Result(r1.s, [] + r1.out), e2);
    LeadsStep(cfg, [] + [e1] + [e2], Result(r2.s, [] + r1.out + r2.out), e3);
  }

  lemma FirstGap(cfg: Config, paths: Paths)
    requires !cfg.retranDisabled
    ensures var s := OnCapsule(cfg, INITIAL, 3, paths).s;
            s.lastDataId == 3 && s.transmitted == {3} && s.lostFromPrev == {} && s.waitNext == {4} && s.curBatchID == 1 && s.batches == map[0 := {1, 2}]
  {
    var s1 := INITIAL.(transmitted := INITIAL.transmitted + {3});
    assert s1.transmitted == {3};
    assert NewLost(s1, 3) == {1, 2};
    OpenBatchKeeps(cfg, s1, {1, 2}, false, paths);
    var s2 := Accept(cfg, s1, 3, paths).s;
    assert s2.batches == map[0 := {1, 2}] && s2.curBatchID == 1 && s2.waitNext == {} && s2.lastDataId == 3 && s2.waitRecords == [];
    hide Accept, NewLost, OpenBatch;
    assert s2.lostFromPrev + s2.transmitted == {3};
    assert NextFree({3}, 4) == 4;
  }

  lemma AfterReserved(cfg: Config, s: RouterState, paths: Paths)
    requires s.lastDataId == 3 && s.transmitted == {3} && s.lostFromPrev == {} && s.waitNext == {4} && s.curBatchID == 1 && s.batches == map[0 := {1, 2}]
    ensures var s' := OnRetranM(s, 9, UINT_MAX, UINT_MAX, paths).s;
            s'.lastDataId == UINT_MAX && s'.transmitted == {3, UINT_MAX} && s'.lostFromPrev == {} && s'.waitNext == {4, 0}
            && s'.curBatchID == 1 && s'.batches == map[0 := {1, 2}]
  {
  }

  lemma SecondGap(cfg: Config, s: RouterState, paths: Paths)
    requires !cfg.retranDisabled && s.lastDataId == UINT_MAX && s.transmitted == {3, UINT_MAX} && s.lostFromPrev == {} && s.waitNext == {4, 0}
    requires s.curBatchID == 1 && s.batches == map[0 := {1, 2}]
    ensures var b := OnCapsule(cfg, s, 5, paths).s.batches; 0 in b && 1 in b && 1 in b[0] && 1 in b[1]
  {
    var s1 := s.(transmitted := s.transmitted + {5});
    CapsuleBatches(cfg, s, 5, paths);
    assert NewLost(s1, 5) == {1, 2};
    OpenBatchKeeps(cfg, s1, {1, 2}, false, paths);
  }
}
