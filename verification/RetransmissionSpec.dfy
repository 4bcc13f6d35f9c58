/**
 * What a router does with the capsules of one prefix, as steps over a value: which packets it has
 * transmitted, which it believes lost, and which it asks for again, singly or in batches.
 */
module RetransmissionSpec {
  import opened Common

  /** The largest data id, reserved for "no data". */
  const UINT_MAX: int := 0xFFFF_FFFF

  datatype Config = Config(numRetransRequests: nat, retranDisabled: bool)

  /** What the forwarding tables say of the route when an event is handled. */
  datatype Paths = Paths(downInRspState: bool, hasDown: bool, hasApp: bool, hasRetransPoint: bool)

  /** A capsule sent on, under the name of some id; a batch opened; one round of requests for what is left of a batch. */
  datatype Output =
    | Forward(dataId: int, name: int, onRsp: bool)
    | Opened(rbi: nat, fromReport: bool, ids: set<int>)
    | RequestM(rbi: nat, ids: set<int>)

  /**
   * `waitSets` holds the sets that a record of the waiting list shares with the timer scheduled for it, by
   * the order of their creation; an event id is that number as an unsigned 32-bit value.
   */
  datatype RouterState = RouterState(
    lastDataId: int,
    transmitted: set<int>,
    lostFromPrev: set<int>,
    waitNext: set<int>,
    nextTimers: set<int>,
    batches: map<nat, set<int>>,
    batchTimers: map<nat, nat>,
    curBatchID: nat,
    waitRecords: seq<nat>,
    waitSets: map<nat, set<int>>,
    waitTimers: set<nat>,
    curWaitID: nat,
    recentReportUIDs: set<int>)

  datatype Result = Result(s: RouterState, out: seq<Output>)

  const INITIAL: RouterState := RouterState(0, {}, {}, {}, {}, map[], map[], 0, [], map[], {}, 0, {})

  // ------------------------------------------------------------- waiting for one capsule

  /** The first id from `id` on, past the largest one back to 0, that is not taken. */
  function NextFree(taken: set<int>, id: int): int
    decreases |taken|
  {
    if id in taken then NextFree(taken - {id}, Uint32(id + 1)) else id
  }

  /** Some id is not taken; if there were none, looking for the next one would not end. */
  ghost predicate SomeFree(taken: set<int>) {
    exists f :: 0 <= f <= UINT_MAX && f !in taken
  }

  /** How many ids one has to go on from `id`, wrapping, to get to `f`. */
  ghost function Ahead(id: int, f: int): nat {
    (f - id) % 0x1_0000_0000
  }

  lemma AheadStep(id: int, f: int)
    requires 0 <= id <= UINT_MAX && 0 <= f <= UINT_MAX && id != f
    ensures Ahead(Uint32(id + 1), f) == Ahead(id, f) - 1 && 0 <= Uint32(id + 1) <= UINT_MAX
  {
  }

  /** `n` is not taken, and every id from `start` up to it, over the wrap if need be, is. */
  ghost predicate FirstFree(taken: set<int>, start: int, n: int) {
    0 <= n <= UINT_MAX && n !in taken && forall x :: 0 <= x <= UINT_MAX && Ahead(start, x) < Ahead(start, n) ==> x in taken
  }

  /** The scan finds the first id that is not taken, if there is one. */
  lemma {:induction false} NextFreeFirst(taken: set<int>, start: int, f: int)
    requires 0 <= start <= UINT_MAX && 0 <= f <= UINT_MAX && f !in taken
    ensures FirstFree(taken, start, NextFree(taken, start))
    decreases |taken|
  {
    hide Ahead;
    var n := NextFree(taken, start);
    if start in taken {
      var rest, next := taken - {start}, Uint32(start + 1);
      AheadStep(start, f);
      NextFreeFirst(rest, next, f);
      AheadLast(start, f);
      assert n != start;
      AheadStep(start, n);
      forall x | 0 <= x <= UINT_MAX && Ahead(start, x) < Ahead(start, n) ensures x in taken {
        if x != start {
          AheadStep(start, x);
        }
      }
    } else {
      assert Ahead(start, start) == 0 by { AheadNone(start); }
    }
  }

  /** The id before `next` is the last one on the way round. */
  lemma AheadLast(id: int, f: int)
    requires 0 <= id <= UINT_MAX && 0 <= f <= UINT_MAX && id != f
    ensures Ahead(Uint32(id + 1), f) < Ahead(Uint32(id + 1), id)
  {
  }

  lemma AheadNone(id: int)
    ensures Ahead(id, id) == 0
  {
  }

  function ComputeNextDataId(s: RouterState, curDataId: int): int {
    NextFree(s.lostFromPrev + s.transmitted, Uint32(curDataId + 1))
  }

  function WaitForNext(s: RouterState, id: int): RouterState {
    if id in s.waitNext then s else s.(waitNext := s.waitNext + {id}, nextTimers := s.nextTimers + {id})
  }

  function CleanWaitForNext(s: RouterState, id: int): RouterState {
    s.(waitNext := s.waitNext - {id}, nextTimers := s.nextTimers - {id})
  }

  /** A capsule that was asked for again raises the last id, and the next one is waited for. */
  function Raised(s: RouterState, dataId: int): RouterState {
    if dataId > s.lastDataId then
      var s' := s.(lastDataId := dataId);
      WaitForNext(s', ComputeNextDataId(s', dataId))
    else s
  }

  // ------------------------------------------------------------------------------ batches

  /** One round for a batch: nothing once no requests are left, or no ids, or no path to ask over. */
  function Round(s: RouterState, rbi: nat, rest: nat, paths: Paths): Result {
    if rest == 0 then Result(s, [])
    else if rbi !in s.batches || s.batches[rbi] == {} then Result(s.(batches := s.batches - {rbi}), [])
    else if !paths.hasRetransPoint then Result(s, [])
    else Result(s.(batchTimers := s.batchTimers[rbi := rest - 1]), [RequestM(rbi, s.batches[rbi])])
  }

  function OpenBatch(cfg: Config, s: RouterState, ids: set<int>, fromReport: bool, paths: Paths): Result {
    var rbi := s.curBatchID;
    var r := Round(s.(curBatchID := rbi + 1, batches := s.batches[rbi := ids]), rbi, cfg.numRetransRequests, paths);
    Result(r.s, [Opened(rbi, fromReport, ids)] + r.out)
  }

  /** An id answered in a batch leaves it; a batch found empty is dropped with its timer. */
  function CleanBatch(s: RouterState, bri: nat, dataId: int): RouterState {
    if bri !in s.batches then s
    else if s.batches[bri] == {} then s.(batches := s.batches - {bri}, batchTimers := s.batchTimers - {bri})
    else s.(batches := s.batches[bri := s.batches[bri] - {dataId}])
  }

  /** All batches without the ids in `lost`, empty ones dropped. */
  function Pruned(batches: map<nat, set<int>>, lost: set<int>): (r: map<nat, set<int>>)
    ensures r.Keys <= batches.Keys && forall b :: b in r ==> r[b] == batches[b] - lost
  {
    map b | b in batches && batches[b] - lost != {} :: batches[b] - lost
  }

  function CleanBatches(s: RouterState, lost: set<int>): RouterState {
    var batches := Pruned(s.batches, lost);
    s.(batches := batches, batchTimers := map b | b in s.batchTimers && (b in s.batches ==> b in batches) :: s.batchTimers[b])
  }

  /** The ids between the last one and the current one that are missing and that nobody is taking care of. */
  function NewLost(s: RouterState, curDataId: int): set<int> {
    set id | Uint32(s.lastDataId + 1) <= id < curDataId && id !in s.lostFromPrev && id !in s.waitNext && id !in s.transmitted
  }

  function Discover(cfg: Config, s: RouterState, curDataId: int, paths: Paths): Result {
    var ids := NewLost(s, curDataId);
    if ids == {} then Result(s, []) else OpenBatch(cfg, s, ids, false, paths)
  }

  // ---------------------------------------------------------- ids an upstream router asks for

  /** The first record whose set holds the id. */
  function RecordWith(records: seq<nat>, sets: map<nat, set<int>>, id: int): (i: nat)
    ensures i <= |records|
    ensures i < |records| ==> records[i] in sets && id in sets[records[i]]
    ensures forall j :: 0 <= j < i ==> records[j] !in sets || id !in sets[records[j]]
  {
    if records == [] then 0
    else if records[0] in sets && id in sets[records[0]] then 0
    else 1 + RecordWith(records[1..], sets, id)
  }

  /** The id leaves the set, and the record is dropped even if its timer, unless the set is now empty, stays scheduled. */
  function CleanWaits(s: RouterState, id: int): RouterState {
    var i := RecordWith(s.waitRecords, s.waitSets, id);
    if i == |s.waitRecords| then s
    else
      var k := s.waitRecords[i];
      var rest := s.waitSets[k] - {id};
      s.(waitRecords := s.waitRecords[..i] + s.waitRecords[i + 1..], waitSets := s.waitSets[k := rest],
         waitTimers := if rest == {} then s.waitTimers - {k} else s.waitTimers)
  }

  /** The records without the first one of this event id. */
  function WithoutEvent(records: seq<nat>, eventID: int): (r: seq<nat>)
    ensures forall k :: k in r ==> k in records
  {
    if records == [] then [] else if Uint32(records[0]) == eventID then records[1..] else [records[0]] + WithoutEvent(records[1..], eventID)
  }

  function MaxOf(s: set<int>): (m: int)
    requires s != {}
    ensures m in s && forall x :: x in s ==> x <= m
  {
    MaxExists(s);
    var m :| m in s && forall x :: x in s ==> x <= m;
    m
  }

  lemma Member(s: set<int>)
    requires s != {}
    ensures exists x :: x in s
  {
    assert (forall x :: x !in s) ==> s == {};
  }

  lemma {:induction false} MaxExists(s: set<int>)
    requires s != {}
    ensures exists m :: m in s && forall x :: x in s ==> x <= m
  {
    Member(s);
    var x :| x in s;
    var s' := s - {x};
    assert s == s' + {x};
    if s' != {} {
      MaxExists(s');
      var m :| m in s' && forall y :: y in s' ==> y <= m;
      var big := if m > x then m else x;
      assert big in s && forall y :: y in s ==> y <= big;
    } else {
      assert x in s && forall y :: y in s ==> y <= x;
    }
  }

  // ------------------------------------------------------------------------------ handlers

  /** In RSP state a capsule goes down a sub-path, under the id that was asked for. */
  function Deliver(dataId: int, requestedId: int, paths: Paths): seq<Output> {
    if paths.downInRspState then [Forward(dataId, requestedId, true)]
    else if paths.hasDown || paths.hasApp then [Forward(dataId, dataId, false)]
    else []
  }

  function Accept(cfg: Config, s: RouterState, id: int, paths: Paths): Result {
    if id in s.lostFromPrev then Result(s.(lostFromPrev := s.lostFromPrev - {id}), [])
    else
      var r := if id > Uint32(s.lastDataId + 1) then Discover(cfg, s, id, paths) else Result(s, []);
      Result(if id > s.lastDataId then r.s.(lastDataId := id) else r.s, r.out)
  }

  function OnCapsule(cfg: Config, s: RouterState, id: int, paths: Paths): Result {
    if cfg.retranDisabled then Result(s, Deliver(id, id, paths))
    else if id in s.transmitted then Result(s, [])
    else
      var r := Accept(cfg, s.(transmitted := s.transmitted + {id}), id, paths);
      var s' := CleanWaits(CleanWaitForNext(r.s, id), id);
      Result(if id == s'.lastDataId then WaitForNext(s', ComputeNextDataId(s', id)) else s', r.out + Deliver(id, id, paths))
  }

  function OnRetranSMiss(s: RouterState, dataId: int): RouterState {
    if dataId in s.waitNext || dataId in s.transmitted then s else WaitForNext(s, dataId)
  }

  /** Reading the request time of the id creates an entry for it. */
  function OnRetranS(s: RouterState, dataId: int, requestedId: int, paths: Paths): Result {
    if dataId in s.transmitted then Result(s, [])
    else
      var s1 := s.(transmitted := s.transmitted + {dataId}, waitNext := s.waitNext + {dataId});
      Result(Raised(CleanWaitForNext(s1, requestedId), dataId), Deliver(dataId, requestedId, paths))
  }

  function OnRetranM(s: RouterState, bri: nat, dataId: int, requestedId: int, paths: Paths): Result {
    if dataId in s.transmitted then Result(s, [])
    else
      var s1 := CleanBatch(s.(transmitted := s.transmitted + {dataId}), bri, dataId);
      Result(Raised(s1, dataId), Deliver(dataId, requestedId, paths))
  }

  /** Ids not yet known to be asked for upstream are left to the upstream router for a while, if it is a known one. */
  function Deferred(s: RouterState, ids: set<int>, timeoutKnown: bool): RouterState {
    var newIds := ids - s.lostFromPrev;
    if newIds != {} && timeoutKnown then
      s.(curWaitID := s.curWaitID + 1, waitRecords := s.waitRecords + [s.curWaitID], waitSets := s.waitSets[s.curWaitID := newIds],
         waitTimers := s.waitTimers + {s.curWaitID})
    else s
  }

  /** What the upstream routers ask for is no longer asked for here. */
  function Yield(s: RouterState): RouterState {
    var lost := s.lostFromPrev;
    CleanBatches(s.(waitNext := s.waitNext - lost, nextTimers := s.nextTimers - lost), lost)
  }

  function OnReport(s: RouterState, uid: int, ids: set<int>, timeoutKnown: bool): RouterState {
    if uid in s.recentReportUIDs then s
    else
      var s1 := s.(recentReportUIDs := s.recentReportUIDs + {uid});
      if ids == {} then s1
      else
        var s2 := Deferred(s1, ids, timeoutKnown);
        var s3 := s2.(lostFromPrev := s2.lostFromPrev + ids);
        var waiting := s3.lostFromPrev * s3.waitNext;
        var s4 := Yield(s3);
        if waiting == {} then s4 else WaitForNext(s4, ComputeNextDataId(s4, MaxOf(waiting)))
  }

  function OnNextTimer(s: RouterState, id: int): RouterState {
    s.(nextTimers := s.nextTimers - {id}, waitNext := s.waitNext + {id})
  }

  function OnBatchTimer(s: RouterState, rbi: nat, paths: Paths): Result
    requires rbi in s.batchTimers
  {
    Round(s.(batchTimers := s.batchTimers - {rbi}), rbi, s.batchTimers[rbi], paths)
  }

  function OnWaitTimer(cfg: Config, s: RouterState, k: nat, paths: Paths): Result
    requires k in s.waitSets
  {
    var s1 := s.(waitTimers := s.waitTimers - {k}, waitRecords := WithoutEvent(s.waitRecords, Uint32(k)));
    var ids := s.waitSets[k] - s.transmitted;
    if ids == {} then Result(s1, []) else OpenBatch(cfg, s1, ids, true, paths)
  }

  // ---------------------------------------------------------------------------------- runs

  datatype Event =
    | Capsule(dataId: int, paths: Paths)
    | RetranSMiss(dataId: int)
    | RetranS(dataId: int, requestedId: int, paths: Paths)
    | RetranM(bri: nat, dataId: int, requestedId: int, paths: Paths)
    | Report(uid: int, ids: set<int>, timeoutKnown: bool)
    | NextTimer(id: int)
    | BatchTimer(rbi: nat, paths: Paths)
    | WaitTimer(k: nat, paths: Paths)

  /** Messages arrive in any order; a timer fires only while it is scheduled. */
  ghost predicate Enabled(s: RouterState, e: Event) {
    match e
    case NextTimer(id) => id in s.nextTimers
    case BatchTimer(rbi, _) => rbi in s.batchTimers
    case WaitTimer(k, _) => k in s.waitTimers && k in s.waitSets
    case _ => true
  }

  /** The data ids that packets carry are unsigned 32-bit values. */
  ghost predicate Carries(e: Event) {
    match e
    case Capsule(id, _) => 0 <= id <= UINT_MAX
    case RetranS(id, _, _) => 0 <= id <= UINT_MAX
    case RetranM(_, id, _, _) => 0 <= id <= UINT_MAX
    case _ => true
  }

  ghost function Step(cfg: Config, s: RouterState, e: Event): Result
    requires Enabled(s, e)
  {
    match e
    case Capsule(id, paths) => OnCapsule(cfg, s, id, paths)
    case RetranSMiss(id) => Result(OnRetranSMiss(s, id), [])
    case RetranS(id, requestedId, paths) => OnRetranS(s, id, requestedId, paths)
    case RetranM(bri, id, requestedId, paths) => OnRetranM(s, bri, id, requestedId, paths)
    case Report(uid, ids, timeoutKnown) => Result(OnReport(s, uid, ids, timeoutKnown), [])
    case NextTimer(id) => Result(OnNextTimer(s, id), [])
    case BatchTimer(rbi, paths) => OnBatchTimer(s, rbi, paths)
    case WaitTimer(k, paths) => OnWaitTimer(cfg, s, k, paths)
  }

  /** `r` is what the events lead to from the initial state, with everything put out on the way. */
  ghost predicate Leads(cfg: Config, es: seq<Event>, r: Result) {
    if es == [] then r == Result(INITIAL, [])
    else
      var e := es[|es| - 1];
      exists r0 :: Leads(cfg, es[..|es| - 1], r0) && Enabled(r0.s, e) && r == Result(Step(cfg, r0.s, e).s, r0.out + Step(cfg, r0.s, e).out)
  }

  lemma {:induction false} LeadsUnique(cfg: Config, es: seq<Event>, r: Result, r': Result)
    requires Leads(cfg, es, r) && Leads(cfg, es, r')
    ensures r == r'
  {
    hide Step;
    if es == [] {
      assert r == Result(INITIAL, []) == r';
    } else {
      var init, e := es[..|es| - 1], es[|es| - 1];
      var r0 :| Leads(cfg, init, r0) && Enabled(r0.s, e) && r == Result(Step(cfg, r0.s, e).s, r0.out + Step(cfg, r0.s, e).out);
      var r1 :| Leads(cfg, init, r1) && Enabled(r1.s, e) && r' == Result(Step(cfg, r1.s, e).s, r1.out + Step(cfg, r1.s, e).out);
      LeadsUnique(cfg, init, r0, r1);
    }
  }
}
