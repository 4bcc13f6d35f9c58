/** The queue that puts the packets of one source back into order, as long as they do not have to wait too long. */
module Resequencer {

  /** A packet received, with the time it arrived. */
  datatype Element = Element(dataId: int, data: int, arriveTime: int)

  // --------------------------------------------------------------------------- the order

  /** An element of the least id, as the priority queue offers at its top; which one of several is left open. */
  ghost predicate IsTop(q: multiset<Element>, d: Element) {
    d in q && forall e :: e in q ==> d.dataId <= e.dataId
  }

  /** Stands for the priority queue of the standard library. */
  method Top(q: multiset<Element>) returns (d: Element)
    requires |q| > 0
    ensures IsTop(q, d)
  {
    var rest := q;
    d :| d in rest;
    rest := rest - multiset{d};
    while |rest| > 0
      invariant d in q && rest <= q && forall e :: e in q ==> d.dataId <= e.dataId || e in rest
      decreases |rest|
    {
      var e :| e in rest;
      rest := rest - multiset{e};
      if e.dataId < d.dataId {
        d := e;
      }
    }
  }

  ghost predicate Increasing(s: seq<Element>) {
    forall i, j :: 0 <= i < j < |s| ==> s[i].dataId < s[j].dataId
  }

  ghost predicate Distinct(q: multiset<Element>) {
    forall d, e {:trigger q[d], q[e]} :: d in q && e in q && d.dataId == e.dataId ==> d == e && q[d] == 1
  }

  /** Ids have been sent in increasing order, and what is queued, each id once, comes after them. */
  ghost predicate InOrder(sent: seq<Element>, queued: multiset<Element>, last: int) {
    && Increasing(sent) && Distinct(queued) && (forall e :: e in queued ==> e.dataId > last)
  }

  /** The last id is that of the packet sent last; nothing is queued before the first one. */
  ghost predicate LastOf(sent: seq<Element>, queued: multiset<Element>, last: int) {
    && (forall e :: e in queued ==> e.dataId >= 0) && (forall i :: 0 <= i < |sent| ==> sent[i].dataId >= 0)
    && if sent == [] then last == -1 && queued == multiset{} else last == sent[|sent| - 1].dataId
  }

  /** `more` has been taken from the top of the queue. */
  ghost predicate Taken(more: seq<Element>, q: multiset<Element>, q': multiset<Element>) {
    && multiset(more) + q' == q
    && (forall i, j :: 0 <= i < j < |more| ==> more[i].dataId <= more[j].dataId)
    && (forall i, e :: 0 <= i < |more| && e in q' ==> more[i].dataId <= e.dataId)
  }

  lemma TakenTop(more: seq<Element>, q: multiset<Element>, q': multiset<Element>, d: Element)
    requires Taken(more, q, q') && IsTop(q', d)
    ensures Taken(more + [d], q, q' - multiset{d})
  {
    assert multiset(more + [d]) == multiset(more) + multiset{d};
    assert q' == q' - multiset{d} + multiset{d};
  }

  lemma TakenMember(more: seq<Element>, q: multiset<Element>, q': multiset<Element>)
    requires Taken(more, q, q')
    ensures q' <= q && forall i :: 0 <= i < |more| ==> more[i] in q
    ensures forall e :: e in q ==> e in q' || exists i :: 0 <= i < |more| && more[i] == e
    ensures forall e {:trigger q'[e]} :: q[e] == multiset(more)[e] + q'[e]
  {
    forall i | 0 <= i < |more| ensures more[i] in q {
      assert more[i] in multiset(more);
    }
    forall e | e in q && e !in q' ensures exists i :: 0 <= i < |more| && more[i] == e {
      assert multiset(more)[e] > 0;
      assert e in more;
    }
  }

  /** Taking from the top keeps what is in order in order, and puts nothing in order that was not. */
  lemma TakenInOrder(sent: seq<Element>, q: multiset<Element>, last: int, more: seq<Element>, q': multiset<Element>)
    requires Taken(more, q, q') && LastOf(sent, q, last)
    ensures var last' := if more == [] then last else more[|more| - 1].dataId;
            LastOf(sent + more, q', last') && (InOrder(sent + more, q', last') <==> InOrder(sent, q, last))
  {
    TakenLast(sent, q, last, more, q');
    hide LastOf, InOrder, Taken;
    if sent == [] {
      assert sent + more == sent;
    } else {
      if InOrder(sent, q, last) {
        TakenForward(sent, q, last, more, q');
      }
      if InOrder(sent + more, q', if more == [] then last else more[|more| - 1].dataId) {
        TakenBackward(sent, q, last, more, q');
      }
    }
  }

  lemma TakenSome(more: seq<Element>, q: multiset<Element>, q': multiset<Element>)
    requires Taken(more, q, q')
    ensures q' <= q && (forall e :: e in more ==> e in q) && (more == [] ==> q' == q) && (q == multiset{} ==> more == [] && q' == q)
  {
    forall e | e in more ensures e in q {
      assert e in multiset(more);
    }
    assert more != [] ==> more[0] in more;
  }

  lemma TakenLast(sent: seq<Element>, q: multiset<Element>, last: int, more: seq<Element>, q': multiset<Element>)
    requires Taken(more, q, q') && LastOf(sent, q, last)
    ensures LastOf(sent + more, q', if more == [] then last else more[|more| - 1].dataId)
    ensures sent == [] ==> more == [] && q' == q
  {
    hide Taken;
    TakenSome(more, q, q');
    if more == [] {
      assert sent + more == sent;
    } else {
      var all := sent + more;
      assert all[|all| - 1] == more[|more| - 1];
      forall i | 0 <= i < |all| ensures all[i].dataId >= 0 {
        if i >= |sent| {
          assert all[i] in more;
        }
      }
      assert forall e :: e in q' ==> e in q;
    }
  }

  lemma Twice(more: seq<Element>, i: int, j: int)
    requires 0 <= i < j < |more| && more[i] == more[j]
    ensures multiset(more)[more[i]] >= 2
  {
    assert more == more[..j] + more[j..];
    assert more[..j][i] == more[i] && more[j..][0] == more[j];
    assert more[i] in multiset(more[..j]) && more[i] in multiset(more[j..]);
  }

  lemma TakenStrict(more: seq<Element>, q: multiset<Element>, q': multiset<Element>)
    requires Taken(more, q, q') && Distinct(q)
    ensures Increasing(more)
  {
    TakenMember(more, q, q');
    forall i, j | 0 <= i < j < |more| ensures more[i].dataId < more[j].dataId {
      assert more[i] in q && more[j] in q;
      if more[i].dataId == more[j].dataId {
        Twice(more, i, j);
      }
    }
  }

  lemma TakenBelow(more: seq<Element>, q: multiset<Element>, q': multiset<Element>)
    requires Taken(more, q, q') && Distinct(q)
    ensures Distinct(q') && forall e :: e in q' && more != [] ==> e.dataId > more[|more| - 1].dataId
  {
    TakenMember(more, q, q');
    assert forall e :: e in q' ==> e in q;
    if more != [] {
      var m := more[|more| - 1];
      assert m in q && multiset(more)[m] >= 1;
    }
    forall d, e {:trigger q'[d], q'[e]} | d in q' && e in q' && d.dataId == e.dataId ensures d == e && q'[d] == 1 {
      assert d in q && e in q;
    }
  }

  lemma JoinedIncreasing(sent: seq<Element>, more: seq<Element>)
    requires Increasing(sent) && Increasing(more) && sent != [] && forall i :: 0 <= i < |more| ==> more[i].dataId > sent[|sent| - 1].dataId
    ensures Increasing(sent + more)
  {
    var all := sent + more;
    forall i, j | 0 <= i < j < |all| ensures all[i].dataId < all[j].dataId {
      if i < |sent| && j >= |sent| {
        assert sent[i].dataId <= sent[|sent| - 1].dataId;
        assert all[j] == more[j - |sent|];
      } else if i >= |sent| {
        assert all[i] == more[i - |sent|] && all[j] == more[j - |sent|];
      }
    }
  }

  lemma TakenForward(sent: seq<Element>, q: multiset<Element>, last: int, more: seq<Element>, q': multiset<Element>)
    requires Taken(more, q, q') && LastOf(sent, q, last) && sent != [] && InOrder(sent, q, last)
    ensures InOrder(sent + more, q', if more == [] then last else more[|more| - 1].dataId)
  {
    TakenMember(more, q, q');
    TakenStrict(more, q, q');
    TakenBelow(more, q, q');
    hide Taken, Increasing, Distinct;
    JoinedIncreasing(sent, more);
  }

  lemma TakenBackward(sent: seq<Element>, q: multiset<Element>, last: int, more: seq<Element>, q': multiset<Element>)
    requires Taken(more, q, q') && LastOf(sent, q, last) && sent != []
    requires InOrder(sent + more, q', if more == [] then last else more[|more| - 1].dataId)
    ensures InOrder(sent, q, last)
  {
    TakenMember(more, q, q');
    SplitIncreasing(sent, more);
    hide Taken, Increasing;
    if more == [] {
      assert forall e :: e in q ==> e in q';
      assert q == q' by { NothingMissing(more, q, q'); }
    } else {
      forall e | e in q ensures e.dataId > last {
        assert e in q' || exists i :: 0 <= i < |more| && more[i] == e;
      }
      forall d, e {:trigger q[d], q[e]} | d in q && e in q && d.dataId == e.dataId ensures d == e && q[d] == 1 {
        SameIdTaken(more, q, q', d, e);
      }
    }
  }

  lemma NothingMissing(more: seq<Element>, q: multiset<Element>, q': multiset<Element>)
    requires Taken(more, q, q') && more == []
    ensures q == q'
  {
  }

  lemma SplitIncreasing(sent: seq<Element>, more: seq<Element>)
    requires Increasing(sent + more) && sent != []
    ensures Increasing(sent) && Increasing(more) && forall i :: 0 <= i < |more| ==> more[i].dataId > sent[|sent| - 1].dataId
    ensures forall i :: 0 <= i < |more| ==> more[i].dataId <= more[|more| - 1].dataId
  {
    var all := sent + more;
    assert forall i :: 0 <= i < |sent| ==> all[i] == sent[i];
    assert forall i :: 0 <= i < |more| ==> all[|sent| + i] == more[i];
  }

  lemma SameIdTaken(more: seq<Element>, q: multiset<Element>, q': multiset<Element>, d: Element, e: Element)
    requires Taken(more, q, q') && more != [] && Increasing(more) && Distinct(q')
    requires forall x :: x in q' ==> x.dataId > more[|more| - 1].dataId
    requires d in q && e in q && d.dataId == e.dataId
    ensures d == e && q[d] == 1
  {
    TakenMember(more, q, q');
    IncreasingLast(more);
    hide Taken, Increasing;
    assert forall i :: 0 <= i < |more| ==> more[i] !in q';
    if d in q' {
      assert e in q' && d !in more && multiset(more)[d] == 0;
    } else {
      hide Distinct;
      var i :| 0 <= i < |more| && more[i] == d;
      var j :| 0 <= j < |more| && more[j] == e;
      SameId(more, i, j);
      Once(more, i);
    }
  }

  lemma IncreasingLast(more: seq<Element>)
    requires Increasing(more)
    ensures forall i :: 0 <= i < |more| ==> more[i].dataId <= more[|more| - 1].dataId
  {
  }

  lemma SameId(more: seq<Element>, i: int, j: int)
    requires Increasing(more) && 0 <= i < |more| && 0 <= j < |more| && more[i].dataId == more[j].dataId
    ensures i == j
  {
  }

  lemma Once(more: seq<Element>, i: int)
    requires Increasing(more) && 0 <= i < |more|
    ensures multiset(more)[more[i]] == 1
  {
    var a, b := more[..i], more[i + 1..];
    assert more == a + [more[i]] + b;
    assert more[i] !in a && more[i] !in b;
    assert multiset(more) == multiset(a) + multiset{more[i]} + multiset(b);
  }

  // ------------------------------------------------------------------------- the releases

  /** Sends, from the top of the queue, as long as ids follow on each other. */
  method TakeRun(q: multiset<Element>, last: int) returns (more: seq<Element>, q': multiset<Element>, last': int)
    ensures Taken(more, q, q') && last' == if more == [] then last else more[|more| - 1].dataId
    ensures forall i :: 0 <= i < |more| ==> more[i].dataId == last + 1 + i
    ensures |q'| == 0 || exists d :: IsTop(q', d) && d.dataId != last' + 1
  {
    hide Taken, IsTop;
    more, q', last' := [], q, last;
    NothingTaken(q);
    while |q'| > 0
      invariant Taken(more, q, q') && last' == (if more == [] then last else more[|more| - 1].dataId) && last' == last + |more|
      invariant forall i :: 0 <= i < |more| ==> more[i].dataId == last + 1 + i
      decreases |q'|
    {
      var d := Top(q');
      assert d in q' by { TopIn(q', d); }
      if d.dataId == last' + 1 {
        TakenTop(more, q, q', d);
        q' := q' - multiset{d};
        more := more + [d];
        last' := last' + 1;
      } else {
        break;
      }
    }
  }

  lemma TopIn(q: multiset<Element>, d: Element)
    requires IsTop(q, d)
    ensures d in q
  {
  }

  lemma NothingTaken(q: multiset<Element>)
    ensures Taken([], q, q)
  {
  }

  /** Every id after the last one sent, up to this one, is queued. */
  ghost predicate NextInLine(q: multiset<Element>, last: int, id: int) {
    last < id && forall x :: last < x <= id ==> IdQueued(q, x)
  }

  ghost predicate IdQueued(q: multiset<Element>, id: int) {
    exists e :: e in q && e.dataId == id
  }

  /** What is not sent in the run is not next in line. */
  lemma RunStops(q: multiset<Element>, last: int, run: seq<Element>, q1: multiset<Element>, e: Element)
    requires Distinct(q) && (forall x :: x in q ==> x.dataId > last) && Taken(run, q, q1) && e in q1
    requires forall i :: 0 <= i < |run| ==> run[i].dataId == last + 1 + i
    requires |q1| == 0 || exists d :: IsTop(q1, d) && d.dataId != last + |run| + 1
    ensures !NextInLine(q, last, e.dataId)
  {
    TakenMember(run, q, q1);
    TakenBelow(run, q, q1);
    hide Taken, Distinct;
    var last1 := last + |run|;
    var d :| IsTop(q1, d) && d.dataId != last1 + 1;
    assert d.dataId > last1 && e.dataId > last1;
    forall x | x in q ensures x.dataId != last1 + 1 {
      assert x in q1 || x.dataId <= last1;
    }
    assert !IdQueued(q, last1 + 1);
  }

  /** What is sent in the run is. */
  lemma RunGoes(q: multiset<Element>, last: int, run: seq<Element>, q1: multiset<Element>, e: Element)
    requires Taken(run, q, q1) && e in q && e !in q1 && forall i :: 0 <= i < |run| ==> run[i].dataId == last + 1 + i
    ensures NextInLine(q, last, e.dataId)
  {
    TakenMember(run, q, q1);
    hide Taken;
    forall x | last < x <= e.dataId ensures IdQueued(q, x) {
      assert run[x - last - 1] in q;
    }
  }

  /** A packet with this id or a larger one is in the time queue, and has waited for the full time. */
  ghost predicate Due(q_time: seq<Element>, id: int, limit: int) {
    exists i :: 0 <= i < |q_time| && q_time[i].arriveTime <= limit && q_time[i].dataId >= id
  }

  /** What a release leaves in the queue: exactly what is neither next in line nor due. */
  ghost predicate ReleasedExactly(q: multiset<Element>, last: int, q_time: seq<Element>, q': multiset<Element>, limit: int) {
    q' <= q && forall e :: e in q ==> (e in q' <==> !NextInLine(q, last, e.dataId) && !Due(q_time, e.dataId, limit))
  }

  /** The second part leaves exactly what is not due. */
  lemma ExpiredExactly(q: multiset<Element>, q_time: seq<Element>, k: nat, max: int, more: seq<Element>, q': multiset<Element>, limit: int, e: Element)
    requires Taken(more, q, q') && UpTo(more, q', max) && Expired(q_time, k, max, limit) && Sorted(q_time) && e in q && e.dataId >= 0
    ensures e in q' <==> !Due(q_time, e.dataId, limit)
  {
    TakenMember(more, q, q');
    hide Taken;
    if Due(q_time, e.dataId, limit) {
      var i :| 0 <= i < |q_time| && q_time[i].arriveTime <= limit && q_time[i].dataId >= e.dataId;
      assert i < k;
    }
    if e !in q' {
      assert e.dataId <= max;
      var i :| 0 <= i < k && q_time[i].dataId == max;
    }
  }

  /** The first k packets are those that have waited long enough; `max` is the largest id of them, or -1. */
  ghost predicate Expired(queue: seq<Element>, k: nat, max: int, limit: int) {
    && k <= |queue| && (k < |queue| ==> queue[k].arriveTime > limit)
    && (forall i :: 0 <= i < k ==> queue[i].arriveTime <= limit && queue[i].dataId <= max)
    && (max == -1 || exists i :: 0 <= i < k && queue[i].dataId == max)
  }

  /** What is taken is not ahead of `max`, what is left is. */
  ghost predicate UpTo(more: seq<Element>, q': multiset<Element>, max: int) {
    (forall i :: 0 <= i < |more| ==> more[i].dataId <= max) && forall e :: e in q' ==> e.dataId > max
  }

  /** Drops what has waited long enough from the front, and finds the largest id of it, or -1. */
  method DropExpired(queue: seq<Element>, limit: int) returns (rest: seq<Element>, dataIdMax: int, ghost k: nat)
    requires forall i :: 0 <= i < |queue| ==> queue[i].dataId >= 0
    ensures k <= |queue| && rest == queue[k..] && Expired(queue, k, dataIdMax, limit)
  {
    rest, dataIdMax, k := queue, -1, 0;
    while |rest| > 0
      invariant k <= |queue| && rest == queue[k..] && dataIdMax >= -1
      invariant forall i :: 0 <= i < k ==> queue[i].arriveTime <= limit && queue[i].dataId <= dataIdMax
      invariant dataIdMax == -1 || exists i :: 0 <= i < k && queue[i].dataId == dataIdMax
      decreases |rest|
    {
      var oldest := rest[0];
      assert oldest == queue[k];
      if oldest.arriveTime <= limit {
        rest := rest[1..];
        k := k + 1;
        if dataIdMax < oldest.dataId {
          dataIdMax := oldest.dataId;
        }
      } else {
        break;
      }
    }
  }

  /** Sends, from the top of the queue, whatever is not ahead of the given id. */
  method TakeUpTo(q: multiset<Element>, last: int, dataIdMax: int) returns (more: seq<Element>, q': multiset<Element>, last': int)
    ensures Taken(more, q, q') && last' == if more == [] then last else more[|more| - 1].dataId
    ensures UpTo(more, q', dataIdMax)
  {
    hide Taken;
    more, q', last' := [], q, last;
    NothingTaken(q);
    while |q'| > 0
      invariant Taken(more, q, q') && last' == (if more == [] then last else more[|more| - 1].dataId)
      invariant forall i :: 0 <= i < |more| ==> more[i].dataId <= dataIdMax
      decreases |q'|
    {
      var d := Top(q');
      if d.dataId <= dataIdMax {
        TakenTop(more, q, q', d);
        q' := q' - multiset{d};
        more := more + [d];
        last' := d.dataId;
      } else {
        break;
      }
    }
  }

  // --------------------------------------------------------------------------- the queue

  ghost predicate Sorted(q: seq<Element>) {
    forall i, j :: 0 <= i < j < |q| ==> q[i].arriveTime <= q[j].arriveTime
  }

  /** A packet with this id or a larger one has waited for the full time. */
  ghost predicate Waited(received: multiset<Element>, id: int, limit: int) {
    exists w :: w in received && w.dataId >= id && w.arriveTime <= limit
  }

  /** Ids are skipped only when a packet with a larger id has waited long enough, or to make room in a full queue. */
  ghost predicate Justified(sent: seq<Element>, sentAt: seq<int>, forced: set<int>, received: multiset<Element>, maxWaitTime: int) {
    && |sentAt| == |sent|
    && forall k :: 0 < k < |sent| && sent[k].dataId > sent[k - 1].dataId + 1 && k !in forced ==> Waited(received, sent[k].dataId, sentAt[k] - maxWaitTime)
  }

  /** What is queued is in the time queue as well, which is sorted and holds nothing but what was received. */
  ghost predicate Queued(q_seq: multiset<Element>, q_time: seq<Element>, received: multiset<Element>, clock: int) {
    && q_seq <= multiset(q_time) && Sorted(q_time)
    && (forall i :: 0 <= i < |q_time| ==> q_time[i] in received && q_time[i].dataId >= 0 && q_time[i].arriveTime <= clock)
  }

  /** What is left of the queue is left of the time queue. */
  lemma StillTimed(q_seq: multiset<Element>, q_time: seq<Element>, k: nat, max: int, q': multiset<Element>)
    requires q' <= q_seq <= multiset(q_time) && k <= |q_time| && forall i :: 0 <= i < k ==> q_time[i].dataId <= max
    requires forall e :: e in q' ==> e.dataId > max
    ensures q' <= multiset(q_time[k..])
  {
    var gone, rest := q_time[..k], q_time[k..];
    assert q_time == gone + rest;
    assert multiset(q_time) == multiset(gone) + multiset(rest);
    assert forall e :: e in gone ==> e.dataId <= max;
    forall e ensures q'[e] <= multiset(rest)[e] {
      assert e in q' ==> e !in gone && multiset(gone)[e] == 0;
    }
  }

  lemma RestTimed(q_time: seq<Element>, received: multiset<Element>, clock: int, k: nat, limit: int)
    requires Sorted(q_time) && (forall i :: 0 <= i < |q_time| ==> q_time[i] in received && q_time[i].dataId >= 0 && q_time[i].arriveTime <= clock)
    requires k <= |q_time| && (k < |q_time| ==> q_time[k].arriveTime > limit)
    ensures Sorted(q_time[k..]) && forall i :: 0 <= i < |q_time[k..]| ==>
              q_time[k..][i] in received && q_time[k..][i].dataId >= 0 && limit < q_time[k..][i].arriveTime <= clock
  {
  }

  /** After the queue was released nothing is left that has waited long enough. */
  lemma ReleasedQueue(q_seq: multiset<Element>, q_time: seq<Element>, received: multiset<Element>, clock: int, k: nat, max: int, q': multiset<Element>, limit: int)
    requires Queued(q_seq, q_time, received, clock) && k <= |q_time| && (k < |q_time| ==> q_time[k].arriveTime > limit)
    requires forall i :: 0 <= i < k ==> q_time[i].dataId <= max
    requires q' <= q_seq && forall e :: e in q' ==> e.dataId > max
    ensures Queued(q', q_time[k..], received, clock) && forall e :: e in q' ==> e.arriveTime > limit
  {
    StillTimed(q_seq, q_time, k, max, q');
    RestTimed(q_time, received, clock, k, limit);
    var rest := q_time[k..];
    hide Sorted;
    forall e | e in q' ensures e.arriveTime > limit {
      assert e in multiset(rest);
      assert e in rest;
    }
  }

  lemma FewerQueued(q_seq: multiset<Element>, q_time: seq<Element>, received: multiset<Element>, clock: int, q': multiset<Element>)
    requires Queued(q_seq, q_time, received, clock) && q' <= q_seq
    ensures Queued(q', q_time, received, clock)
  {
  }

  lemma OneMoreQueued(q_seq: multiset<Element>, q_time: seq<Element>, received: multiset<Element>, clock: int, d: Element)
    requires Queued(q_seq, q_time, received, clock) && d.arriveTime >= clock && d.dataId >= 0
    ensures Queued(q_seq + multiset{d}, q_time + [d], received + multiset{d}, d.arriveTime)
    ensures Queued(q_seq, q_time, received + multiset{d}, d.arriveTime)
  {
    assert multiset(q_time + [d]) == multiset(q_time) + multiset{d};
  }

  /** Sending packets whose ids follow on each other, or for which some packet has waited. */
  lemma MoreJustified(sent: seq<Element>, sentAt: seq<int>, forced: set<int>, received: multiset<Element>, maxWaitTime: int, last: int,
                      more: seq<Element>, now: int, forced': set<int>)
    requires Justified(sent, sentAt, forced, received, maxWaitTime) && forced <= forced' && (sent != [] ==> last == sent[|sent| - 1].dataId)
    requires (forall i :: 0 <= i < |more| ==> more[i].dataId == last + 1 + i)
      || (forall i :: 0 <= i < |more| ==> Waited(received, more[i].dataId, now - maxWaitTime))
      || (forall j :: |sent| <= j < |sent| + |more| ==> j in forced')
    ensures Justified(sent + more, sentAt + seq(|more|, _ => now), forced', received, maxWaitTime)
  {
    hide Waited;
    var all, at := sent + more, sentAt + seq(|more|, _ => now);
    forall k | 0 < k < |all| && all[k].dataId > all[k - 1].dataId + 1 && k !in forced' ensures Waited(received, all[k].dataId, at[k] - maxWaitTime) {
      if k >= |sent| {
        var i := k - |sent|;
        assert all[k] == more[i] && at[k] == now;
        assert i > 0 ==> all[k - 1] == more[i - 1];
        assert i == 0 ==> all[k - 1] == sent[|sent| - 1];
        assert (forall j :: |sent| <= j < |sent| + |more| ==> j in forced') ==> k in forced';
        assert (forall j :: 0 <= j < |more| ==> Waited(received, more[j].dataId, now - maxWaitTime)) ==> Waited(received, more[i].dataId, now - maxWaitTime);
      } else {
        assert all[k] == sent[k] && all[k - 1] == sent[k - 1] && at[k] == sentAt[k];
      }
    }
  }

  lemma LastSent(sent: seq<Element>, queued: multiset<Element>, last: int)
    requires LastOf(sent, queued, last)
    ensures sent != [] ==> last == sent[|sent| - 1].dataId >= 0
  {
  }

  lemma TakenSum(sent: seq<Element>, q: multiset<Element>, more: seq<Element>, q': multiset<Element>)
    requires Taken(more, q, q')
    ensures multiset(sent + more) + q' == multiset(sent) + q
  {
    assert multiset(sent + more) == multiset(sent) + multiset(more);
  }

  lemma TimesNatural(q_seq: multiset<Element>, q_time: seq<Element>, received: multiset<Element>, clock: int)
    requires Queued(q_seq, q_time, received, clock)
    ensures forall i :: 0 <= i < |q_time| ==> q_time[i].dataId >= 0
    ensures |q_seq| > 0 ==> |q_time| > 0
  {
  }

  lemma MoreReceived(sent: seq<Element>, sentAt: seq<int>, forced: set<int>, received: multiset<Element>, received': multiset<Element>, maxWaitTime: int)
    requires Justified(sent, sentAt, forced, received, maxWaitTime) && received <= received'
    ensures Justified(sent, sentAt, forced, received', maxWaitTime)
  {
  }

  /** A packet sent without being queued is in order unless its id is queued. */
  lemma DirectFits(sent: seq<Element>, q: multiset<Element>, last: int, de: Element)
    requires LastOf(sent, q, last) && de.dataId >= 0 && (last == -1 || de.dataId == last + 1)
    ensures LastOf(sent + [de], q, de.dataId)
    ensures InOrder(sent + [de], q, de.dataId) <==> InOrder(sent, q, last) && (last == -1 || forall e :: e in q ==> e.dataId != de.dataId)
  {
    hide Distinct;
    if InOrder(sent + [de], q, de.dataId) {
      assert forall i :: 0 <= i < |sent| ==> (sent + [de])[i] == sent[i];
    }
    if sent != [] && InOrder(sent, q, last) {
      assert Increasing(sent + [de]);
    }
  }

  // ---------------------------------------------------------------------------- its state

  /** The state of the queue, with what has been received and sent, and when; `forced` holds the places of packets that made room. */
  datatype State = State(lastDataId: int, q_seq: multiset<Element>, q_time: seq<Element>, sent: seq<Element>, sentAt: seq<int>,
                         received: multiset<Element>, forced: set<int>, clock: int)

  /** Nothing is lost or made up, and no id is skipped without a reason. */
  ghost predicate Good(s: State, maxWaitTime: int) {
    && LastOf(s.sent, s.q_seq, s.lastDataId) && multiset(s.sent) + s.q_seq == s.received
    && Queued(s.q_seq, s.q_time, s.received, s.clock) && Justified(s.sent, s.sentAt, s.forced, s.received, maxWaitTime)
  }

  ghost predicate Ordered(s: State) {
    InOrder(s.sent, s.q_seq, s.lastDataId)
  }

  ghost function AfterSending(s: State, more: seq<Element>, q': multiset<Element>, now: int, forced': set<int>): State {
    s.(q_seq := q', lastDataId := if more == [] then s.lastDataId else more[|more| - 1].dataId, sent := s.sent + more,
       sentAt := s.sentAt + seq(|more|, _ => now), forced := forced')
  }

  /** Handing packets from the top of the queue to the application. */
  lemma GoodSending(s: State, maxWaitTime: int, more: seq<Element>, q': multiset<Element>, now: int, forced': set<int>)
    requires Good(s, maxWaitTime) && Taken(more, s.q_seq, q') && s.forced <= forced'
    requires (forall i :: 0 <= i < |more| ==> more[i].dataId == s.lastDataId + 1 + i)
      || (forall i :: 0 <= i < |more| ==> Waited(s.received, more[i].dataId, now - maxWaitTime))
      || (forall j :: |s.sent| <= j < |s.sent| + |more| ==> j in forced')
    ensures Good(AfterSending(s, more, q', now, forced'), maxWaitTime)
    ensures Ordered(AfterSending(s, more, q', now, forced')) <==> Ordered(s)
    ensures q' <= s.q_seq && forall i :: 0 <= i < |more| ==> more[i] in s.q_seq
  {
    hide Taken, LastOf, InOrder, Queued, Justified, Waited;
    TakenInOrder(s.sent, s.q_seq, s.lastDataId, more, q');
    TakenMember(more, s.q_seq, q');
    FewerQueued(s.q_seq, s.q_time, s.received, s.clock, q');
    LastSent(s.sent, s.q_seq, s.lastDataId);
    MoreJustified(s.sent, s.sentAt, s.forced, s.received, maxWaitTime, s.lastDataId, more, now, forced');
    TakenSum(s.sent, s.q_seq, more, q');
  }

  lemma GoodTimes(s: State, maxWaitTime: int, q_time': seq<Element>)
    requires Good(s, maxWaitTime) && Queued(s.q_seq, q_time', s.received, s.clock)
    ensures Good(s.(q_time := q_time'), maxWaitTime) && (Ordered(s.(q_time := q_time')) <==> Ordered(s))
  {
  }

  lemma AllWaited(s: State, maxWaitTime: int, k: nat, max: int, more: seq<Element>, now: int)
    requires Good(s, maxWaitTime) && k <= |s.q_time| && forall i :: 0 <= i < k ==> s.q_time[i].arriveTime <= now - maxWaitTime
    requires (max == -1 && more == []) || exists i :: 0 <= i < k && s.q_time[i].dataId == max
    requires forall i :: 0 <= i < |more| ==> more[i].dataId <= max
    ensures forall i :: 0 <= i < |more| ==> Waited(s.received, more[i].dataId, now - maxWaitTime)
  {
  }

  ghost function AfterExpiring(s: State, more: seq<Element>, q': multiset<Element>, now: int, k: nat): State
    requires k <= |s.q_time|
  {
    AfterSending(s, more, q', now, s.forced).(q_time := s.q_time[k..])
  }

  /** Letting go of what has waited long enough in the time queue. */
  lemma GoodExpiring(s: State, maxWaitTime: int, k: nat, max: int, more: seq<Element>, q': multiset<Element>, now: int)
    requires Good(s, maxWaitTime) && k <= |s.q_time| && Expired(s.q_time, k, max, now - maxWaitTime)
    requires Taken(more, s.q_seq, q') && UpTo(more, q', max) && (max == -1 ==> more == [])
    ensures var s' := AfterExpiring(s, more, q', now, k); Good(s', maxWaitTime) && (Ordered(s') <==> Ordered(s))
    ensures q' <= s.q_seq && forall e :: e in q' ==> e.arriveTime > now - maxWaitTime
  {
    hide Good, Ordered, Taken, Waited, Queued, AfterSending;
    TakenMember(more, s.q_seq, q');
    GoodQueued(s, maxWaitTime);
    ReleasedQueue(s.q_seq, s.q_time, s.received, s.clock, k, max, q', now - maxWaitTime);
    AllWaited(s, maxWaitTime, k, max, more, now);
    GoodSending(s, maxWaitTime, more, q', now, s.forced);
    AfterSendingParts(s, more, q', now, s.forced);
    GoodTimes(AfterSending(s, more, q', now, s.forced), maxWaitTime, s.q_time[k..]);
  }

  /** The id is ahead of the last one sent, and of the one that has to make room for it, and is not queued already. */
  ghost predicate Fits(s: State, size: nat, dataId: int) {
    s.lastDataId == -1 ||
    (dataId > s.lastDataId && (forall e :: e in s.q_seq ==> e.dataId != dataId)
     && (|s.q_seq| == size && dataId != s.lastDataId + 1 ==> exists e :: e in s.q_seq && e.dataId < dataId))
  }

  ghost function AfterDirect(s: State, de: Element): State {
    s.(sent := s.sent + [de], sentAt := s.sentAt + seq(|[de]|, _ => de.arriveTime), lastDataId := de.dataId, received := s.received + multiset{de},
       clock := de.arriveTime)
  }

  lemma GoodDirect(s: State, maxWaitTime: int, size: nat, de: Element)
    requires Good(s, maxWaitTime) && de.dataId >= 0 && de.arriveTime >= s.clock && (s.lastDataId == -1 || de.dataId == s.lastDataId + 1)
    ensures Good(AfterDirect(s, de), maxWaitTime) && (Ordered(AfterDirect(s, de)) <==> Ordered(s) && Fits(s, size, de.dataId))
  {
    hide LastOf, InOrder, Queued, Justified, Fits;
    DirectFits(s.sent, s.q_seq, s.lastDataId, de);
    OneMoreQueued(s.q_seq, s.q_time, s.received, s.clock, de);
    LastSent(s.sent, s.q_seq, s.lastDataId);
    FirstJustified(s.sent, s.sentAt, s.forced, s.received, maxWaitTime, s.lastDataId, de);
    MoreReceived(s.sent + [de], s.sentAt + seq(|[de]|, _ => de.arriveTime), s.forced, s.received, s.received + multiset{de}, maxWaitTime);
    SentAndQueued(s.sent, s.q_seq, de);
    DirectOrder(s, size, de);
  }

  lemma SentAndQueued(sent: seq<Element>, q: multiset<Element>, de: Element)
    ensures multiset(sent + [de]) + q == multiset(sent) + q + multiset{de}
  {
  }

  lemma DirectOrder(s: State, size: nat, de: Element)
    requires s.lastDataId == -1 || de.dataId == s.lastDataId + 1
    requires InOrder(s.sent + [de], s.q_seq, de.dataId) <==> Ordered(s) && (s.lastDataId == -1 || forall e :: e in s.q_seq ==> e.dataId != de.dataId)
    ensures Ordered(AfterDirect(s, de)) <==> Ordered(s) && Fits(s, size, de.dataId)
  {
    hide InOrder;
  }

  lemma FirstJustified(sent: seq<Element>, sentAt: seq<int>, forced: set<int>, received: multiset<Element>, maxWaitTime: int, last: int, de: Element)
    requires Justified(sent, sentAt, forced, received, maxWaitTime) && (sent != [] ==> last == sent[|sent| - 1].dataId >= 0 && de.dataId == last + 1)
    ensures Justified(sent + [de], sentAt + seq(|[de]|, _ => de.arriveTime), forced, received, maxWaitTime)
  {
  }

  ghost function AfterQueueing(s: State, de: Element): State {
    s.(q_seq := s.q_seq + multiset{de}, q_time := s.q_time + [de], received := s.received + multiset{de}, clock := de.arriveTime)
  }

  lemma GoodQueueing(s: State, maxWaitTime: int, de: Element)
    requires Good(s, maxWaitTime) && de.dataId >= 0 && de.arriveTime >= s.clock && s.sent != []
    ensures Good(AfterQueueing(s, de), maxWaitTime)
    ensures Ordered(AfterQueueing(s, de)) <==> Ordered(s) && de.dataId > s.lastDataId && forall e :: e in s.q_seq ==> e.dataId != de.dataId
  {
    hide Queued, Justified, InOrder;
    OneMoreQueued(s.q_seq, s.q_time, s.received, s.clock, de);
    MoreReceived(s.sent, s.sentAt, s.forced, s.received, s.received + multiset{de}, maxWaitTime);
    OrderQueueing(s.sent, s.q_seq, s.lastDataId, de);
  }

  lemma OrderQueueing(sent: seq<Element>, q: multiset<Element>, last: int, de: Element)
    ensures InOrder(sent, q + multiset{de}, last) <==> InOrder(sent, q, last) && de.dataId > last && forall e :: e in q ==> e.dataId != de.dataId
  {
    hide Increasing;
    var q' := q + multiset{de};
    assert de in q' && forall e :: e in q ==> e in q' && q'[e] >= q[e];
    if InOrder(sent, q, last) {
      if forall e :: e in q ==> e.dataId != de.dataId {
        assert Distinct(q');
      } else {
        var e :| e in q && e.dataId == de.dataId;
        assert q'[e] >= 1 && (e == de ==> q'[e] >= 2);
        assert !Distinct(q');
      }
    } else if Distinct(q') {
      assert Distinct(q);
    }
  }

  /** Making room: with the order kept so far, a packet fits the full queue exactly if it fits once the top is gone. */
  lemma FitsAfterRoom(s: State, size: nat, d: Element, dataId: int)
    requires IsTop(s.q_seq, d) && s.lastDataId != -1 && dataId != s.lastDataId + 1 && |s.q_seq| == size && Ordered(s)
    ensures Fits(s, size, dataId) <==> dataId > d.dataId && forall e :: e in s.q_seq - multiset{d} ==> e.dataId != dataId
  {
  }

  /** The loops of ReleaseQueue. */
  method Released(q_seq: multiset<Element>, lastDataId: int, sent: seq<Element>, q_time: seq<Element>, curTime: int, maxWaitTime: int, ghost s: State)
    returns (q': multiset<Element>, last': int, sent': seq<Element>, time': seq<Element>, ghost s': State)
    requires Good(s, maxWaitTime) && s.q_seq == q_seq && s.lastDataId == lastDataId && s.sent == sent && s.q_time == q_time
    ensures Good(s', maxWaitTime) && s'.q_seq == q' && s'.lastDataId == last' && s'.sent == sent' && s'.q_time == time'
    ensures s'.received == s.received && s'.clock == s.clock && s'.forced == s.forced && sent <= sent' && q' <= q_seq
    ensures forall e :: e in q' ==> e.arriveTime > curTime - maxWaitTime
    ensures Ordered(s') <==> Ordered(s)
    ensures Ordered(s) ==> ReleasedExactly(q_seq, lastDataId, q_time, q', curTime - maxWaitTime)
  {
    hide *;
    var run, q1, last1 := TakeRun(q_seq, lastDataId);
    GoodSending(s, maxWaitTime, run, q1, curTime, s.forced);
    ghost var s1 := AfterSending(s, run, q1, curTime, s.forced);
    AfterSendingParts(s, run, q1, curTime, s.forced);
    q', last', sent', time', s' := q1, last1, sent + run, q_time, s1;
    if |q1| == 0 {
      EmptyNone(q1);
      if Ordered(s) { RunExactly(s, run, q1, q', curTime - maxWaitTime); }
      return;
    }
    q', last', sent', time', s' := ReleasedExpired(q1, last1, sent', q_time, curTime, maxWaitTime, s1);
    if Ordered(s) { RunExactly(s, run, q1, q', curTime - maxWaitTime); }
  }

  /** Both parts together. */
  lemma RunExactly(s: State, run: seq<Element>, q1: multiset<Element>, q': multiset<Element>, limit: int)
    requires Ordered(s) && Taken(run, s.q_seq, q1) && q' <= q1 <= s.q_seq && forall i :: 0 <= i < |run| ==> run[i].dataId == s.lastDataId + 1 + i
    requires |q1| == 0 || exists d :: IsTop(q1, d) && d.dataId != s.lastDataId + |run| + 1
    requires forall e :: e in q1 ==> (e in q' <==> !Due(s.q_time, e.dataId, limit))
    ensures ReleasedExactly(s.q_seq, s.lastDataId, s.q_time, q', limit)
  {
    hide Taken, IsTop, Due, NextInLine, Increasing, Distinct;
    forall e | e in s.q_seq ensures e in q' <==> !NextInLine(s.q_seq, s.lastDataId, e.dataId) && !Due(s.q_time, e.dataId, limit) {
      if e in q1 {
        RunStops(s.q_seq, s.lastDataId, run, q1, e);
      } else {
        RunGoes(s.q_seq, s.lastDataId, run, q1, e);
        assert e !in q';
      }
    }
  }


  /** The second part: what has waited long enough, and everything before it. */
  method ReleasedExpired(q_seq: multiset<Element>, lastDataId: int, sent: seq<Element>, q_time: seq<Element>, curTime: int, maxWaitTime: int, ghost s: State)
    returns (q': multiset<Element>, last': int, sent': seq<Element>, time': seq<Element>, ghost s': State)
    requires Good(s, maxWaitTime) && s.q_seq == q_seq && s.lastDataId == lastDataId && s.sent == sent && s.q_time == q_time
    ensures Good(s', maxWaitTime) && s'.q_seq == q' && s'.lastDataId == last' && s'.sent == sent' && s'.q_time == time'
    ensures s'.received == s.received && s'.clock == s.clock && s'.forced == s.forced && sent <= sent' && q' <= q_seq
    ensures forall e :: e in q' ==> e.arriveTime > curTime - maxWaitTime
    ensures Ordered(s') <==> Ordered(s)
    ensures forall e :: e in q_seq ==> (e in q' <==> !Due(q_time, e.dataId, curTime - maxWaitTime))
  {
    hide *;
    GoodQueued(s, maxWaitTime);
    TimesNatural(q_seq, s.q_time, s.received, s.clock);
    var rest, dataIdMax, k := DropExpired(q_time, curTime - maxWaitTime);
    q', last', sent', time' := q_seq, lastDataId, sent, rest;
    var more := [];
    if dataIdMax == -1 {
      NothingTaken(q_seq);
      NaturalIds(s, maxWaitTime);
    } else {
      more, q', last' := TakeUpTo(q_seq, lastDataId, dataIdMax);
      sent' := sent + more;
    }
    AllExpired(s, maxWaitTime, k, dataIdMax, more, q', curTime - maxWaitTime);
    GoodExpiring(s, maxWaitTime, k, dataIdMax, more, q', curTime);
    s' := AfterExpiring(s, more, q', curTime, k);
    AfterExpiringParts(s, more, q', curTime, k);
  }

  lemma AllExpired(s: State, maxWaitTime: int, k: nat, max: int, more: seq<Element>, q': multiset<Element>, limit: int)
    requires Good(s, maxWaitTime) && Taken(more, s.q_seq, q') && UpTo(more, q', max) && Expired(s.q_time, k, max, limit)
    ensures forall e :: e in s.q_seq ==> (e in q' <==> !Due(s.q_time, e.dataId, limit))
  {
    hide *;
    forall e | e in s.q_seq ensures e in q' <==> !Due(s.q_time, e.dataId, limit) {
      GoodSorted(s, maxWaitTime, e);
      ExpiredExactly(s.q_seq, s.q_time, k, max, more, q', limit, e);
    }
  }

  lemma GoodSorted(s: State, maxWaitTime: int, e: Element)
    requires Good(s, maxWaitTime) && e in s.q_seq
    ensures Sorted(s.q_time) && e.dataId >= 0
  {
  }

  lemma AfterExpiringParts(s: State, more: seq<Element>, q': multiset<Element>, now: int, k: nat)
    requires k <= |s.q_time|
    ensures var s' := AfterExpiring(s, more, q', now, k);
            && s'.q_seq == q' && s'.lastDataId == (if more == [] then s.lastDataId else more[|more| - 1].dataId) && s'.sent == s.sent + more
            && s'.q_time == s.q_time[k..] && s'.received == s.received && s'.clock == s.clock && s'.forced == s.forced
  {
  }

  /** A full queue, and no other, has given its top away. */
  ghost predicate RoomIn(q: multiset<Element>, last: int, size: nat, q': multiset<Element>, last': int) {
    if |q| == size then exists d :: IsTop(q, d) && q' == q - multiset{d} && last' == d.dataId else q' == q && last' == last
  }

  /**
   * Where an arriving packet goes: at once to the application, if it is the first or the next one; or into the queue, with
   * room made if need be, from which then exactly what is next in line or due is released.
   */
  ghost predicate Received(s: State, s': State, de: Element, size: nat, maxWaitTime: int) {
    if s.lastDataId == -1 || de.dataId == s.lastDataId + 1 then s'.sent == s.sent + [de] && s'.q_seq == s.q_seq
    else exists q1, last1 :: RoomIn(s.q_seq, s.lastDataId, size, q1, last1) && QueuedAndReleased(s, s', de, size, maxWaitTime, q1, last1)
  }

  ghost predicate QueuedAndReleased(s: State, s': State, de: Element, size: nat, maxWaitTime: int, q1: multiset<Element>, last1: int) {
    Ordered(s) && Fits(s, size, de.dataId) ==>
      ReleasedExactly(q1 + multiset{de}, last1, s.q_time + [de], s'.q_seq, de.arriveTime - maxWaitTime)
  }

  lemma ReceivedDirect(s: State, de: Element, size: nat, maxWaitTime: int)
    requires s.lastDataId == -1 || de.dataId == s.lastDataId + 1
    ensures Received(s, AfterDirect(s, de), de, size, maxWaitTime)
  {
  }

  lemma ReceivedQueued(s: State, s2: State, s': State, de: Element, size: nat, maxWaitTime: int, q1: multiset<Element>, last1: int)
    requires !(s.lastDataId == -1 || de.dataId == s.lastDataId + 1) && RoomIn(s.q_seq, s.lastDataId, size, q1, last1)
    requires s2.q_seq == q1 + multiset{de} && s2.lastDataId == last1 && s2.q_time == s.q_time + [de]
    requires Ordered(s) && Fits(s, size, de.dataId) ==> Ordered(s2)
    requires Ordered(s2) ==> ReleasedExactly(s2.q_seq, s2.lastDataId, s2.q_time, s'.q_seq, de.arriveTime - maxWaitTime)
    ensures Received(s, s', de, size, maxWaitTime)
  {
    hide Ordered, Fits, ReleasedExactly, RoomIn;
    assert QueuedAndReleased(s, s', de, size, maxWaitTime, q1, last1);
  }

  /** Sends the top of a full queue to make room for a packet. */
  method MadeRoom(sent: seq<Element>, q_seq: multiset<Element>, lastDataId: int, size: nat, maxWaitTime: int, de: Element, ghost s: State)
    returns (sent': seq<Element>, q': multiset<Element>, last': int, ghost s': State)
    requires Good(s, maxWaitTime) && s.q_seq == q_seq && s.lastDataId == lastDataId && s.sent == sent && size > 0
    requires lastDataId != -1 && de.dataId != lastDataId + 1
    ensures Good(s', maxWaitTime) && s'.q_seq == q' && s'.lastDataId == last' && s'.sent == sent' && sent' != [] && sent <= sent'
    ensures s'.received == s.received && s'.clock == s.clock && s'.q_time == s.q_time && (|q_seq| < size ==> s'.forced == s.forced)
    ensures Ordered(s) <==> Ordered(s')
    ensures Ordered(s) ==> (Fits(s, size, de.dataId) <==> de.dataId > last' && forall e :: e in q' ==> e.dataId != de.dataId)
    ensures RoomIn(q_seq, lastDataId, size, q', last')
  {
    hide *;
    sent', q', last', s' := sent, q_seq, lastDataId, s;
    if |q_seq| == size {
      var d := Top(q_seq);
      TopTaken(q_seq, d);
      GoodSending(s, maxWaitTime, [d], q_seq - multiset{d}, de.arriveTime, s.forced + {|sent|});
      s' := AfterSending(s, [d], q_seq - multiset{d}, de.arriveTime, s.forced + {|sent|});
      AfterSendingParts(s, [d], q_seq - multiset{d}, de.arriveTime, s.forced + {|sent|});
      sent', q', last' := sent + [d], q_seq - multiset{d}, d.dataId;
      assert RoomIn(q_seq, lastDataId, size, q', last') by { RoomMade(q_seq, lastDataId, size, d); }
      if Ordered(s) { FitsAfterRoom(s, size, d, de.dataId); }
    } else {
      RoomLeft(q_seq, lastDataId, size);
      FitsRoomy(s, size, de.dataId);
      SentSome(s, maxWaitTime);
    }
  }

  lemma RoomMade(q: multiset<Element>, last: int, size: nat, d: Element)
    requires |q| == size && IsTop(q, d)
    ensures RoomIn(q, last, size, q - multiset{d}, d.dataId)
  {
  }

  lemma RoomLeft(q: multiset<Element>, last: int, size: nat)
    requires |q| != size
    ensures RoomIn(q, last, size, q, last)
  {
  }

  /** With room made, there is place for one packet more. */
  lemma RoomSize(q: multiset<Element>, last: int, size: nat, q': multiset<Element>, last': int)
    requires RoomIn(q, last, size, q', last') && |q| <= size && size > 0
    ensures |q'| < size
  {
  }

  lemma FewerSize(q: multiset<Element>, q': multiset<Element>)
    requires q' <= q
    ensures |q'| <= |q|
  {
    assert |q| == |q'| + |q - q'|;
  }

  class LltcResequenceQueue {
    const size: nat
    const maxWaitTime: int
    var lastDataId: int
    var q_seq: multiset<Element>
    var q_time: seq<Element>
    /** The packets handed to the application, in order, and what else is worth knowing of the past. */
    var sent: seq<Element>
    ghost var past: State

    ghost function S(): State
      reads this
    {
      past.(lastDataId := lastDataId, q_seq := q_seq, q_time := q_time, sent := sent)
    }

    ghost predicate Valid()
      reads this
    {
      size > 0 && Good(S(), maxWaitTime) && |q_seq| <= size
    }

    constructor (queueSize: nat, maxWaitTime: int, now: int)
      requires queueSize > 0
      ensures Valid() && S() == State(-1, multiset{}, [], [], [], multiset{}, {}, now) && Ordered(S())
      ensures size == queueSize && this.maxWaitTime == maxWaitTime
    {
      size := queueSize;
      this.maxWaitTime := maxWaitTime;
      lastDataId := -1;
      q_seq, q_time, sent := multiset{}, [], [];
      past := State(-1, multiset{}, [], [], [], multiset{}, {}, now);
    }

    /**
     * Sends what is next in order; then, if a packet has waited for the full time, everything up to the largest id
     * that has.  No queued packet has waited that long afterwards, and order is neither lost nor gained.
     */
    method ReleaseQueue(curTime: int)
      requires Valid() && curTime >= S().clock
      modifies this
      ensures Valid() && S().received == old(S()).received && S().clock == old(S()).clock && S().forced == old(S()).forced
      ensures old(sent) <= sent && q_seq <= old(q_seq)
      ensures forall e :: e in q_seq ==> e.arriveTime > curTime - maxWaitTime
      ensures Ordered(S()) <==> old(Ordered(S()))
      ensures old(Ordered(S())) ==> ReleasedExactly(old(q_seq), old(lastDataId), old(q_time), q_seq, curTime - maxWaitTime)
    {
      hide *;
      ghost var s := S();
      SParts(s);
      var q', last', sent', time';
      ghost var s';
      q', last', sent', time', s' := Released(q_seq, lastDataId, sent, q_time, curTime, maxWaitTime, s);
      FewerSize(q_seq, q');
      q_seq, lastDataId, sent, q_time, past := q', last', sent', time', s';
      SIs(s');
    }

    /** Receives a packet.  Sent and queued packets are in order exactly if they were before and the id fits. */
    method ReceiveData(dataId: int, data: int, curTime: int)
      requires Valid() && dataId >= 0 && curTime >= S().clock
      modifies this
      ensures Valid() && S().received == old(S()).received + multiset{Element(dataId, data, curTime)} && S().clock == curTime
      ensures old(sent) <= sent
      ensures Ordered(S()) <==> old(Ordered(S()) && Fits(S(), size, dataId))
      ensures !(old(lastDataId) == -1 || dataId == old(lastDataId) + 1) ==> forall e :: e in q_seq ==> e.arriveTime > curTime - maxWaitTime
      ensures old(|q_seq|) < size ==> S().forced == old(S()).forced
      ensures Received(old(S()), S(), Element(dataId, data, curTime), size, maxWaitTime)
    {
      hide *;
      ghost var s := S();
      SParts(s);
      var de := Element(dataId, data, curTime);
      if lastDataId == -1 || dataId == lastDataId + 1 {
        GoodDirect(s, maxWaitTime, size, de);
        AfterDirectParts(s, de);
        sent, lastDataId, past := sent + [de], dataId, AfterDirect(s, de);
        SIs(AfterDirect(s, de));
        ReceivedDirect(s, de, size, maxWaitTime);
        return;
      }
      var sent1, q1, last1;
      ghost var s1;
      sent1, q1, last1, s1 := MadeRoom(sent, q_seq, lastDataId, size, maxWaitTime, de, s);
      GoodQueueing(s1, maxWaitTime, de);
      AfterQueueingParts(s1, de);
      sent, lastDataId, q_seq, q_time := sent1, last1, q1 + multiset{de}, q_time + [de];
      past := AfterQueueing(s1, de);
      RoomSize(s.q_seq, s.lastDataId, size, q1, last1);
      SIs(AfterQueueing(s1, de));
      ghost var s2 := S();
      ReleaseQueue(curTime);
      SParts(S());
      ReceivedQueued(s, s2, S(), de, size, maxWaitTime, q1, last1);
    }

    method Handle(e: Event)
      requires Valid() && TimeOf(e) >= S().clock && (e.Arrival? ==> e.de.dataId >= 0)
      modifies this
      ensures Valid() && Leads(old(S()), S(), e, size, maxWaitTime) && S().clock <= TimeOf(e)
    {
      hide Good, InOrder, Fits;
      match e
      case Arrival(de) => ReceiveData(de.dataId, de.data, de.arriveTime);
      case Release(time) => ReleaseQueue(time);
    }

    lemma SParts(s: State)
      ensures s == S() ==> s.q_seq == q_seq && s.lastDataId == lastDataId && s.sent == sent && s.q_time == q_time
      ensures s == S() ==> (Valid() <==> size > 0 && Good(s, maxWaitTime) && |q_seq| <= size)
    {
    }

    lemma SIs(s: State)
      requires past == s && q_seq == s.q_seq && lastDataId == s.lastDataId && sent == s.sent && q_time == s.q_time
      ensures S() == s && (Valid() <==> size > 0 && Good(s, maxWaitTime) && |q_seq| <= size)
    {
    }
  }

  // ------------------------------------------------------------------------------- runs

  /** A packet arrives, or the timer releases the queue. */
  datatype Event = Arrival(de: Element) | Release(time: int)

  function TimeOf(e: Event): int {
    if e.Arrival? then e.de.arriveTime else e.time
  }

  ghost predicate InTime(events: seq<Event>, now: int) {
    && (forall i :: 0 <= i < |events| ==> TimeOf(events[i]) >= now)
    && (forall i, j :: 0 <= i < j < |events| ==> TimeOf(events[i]) <= TimeOf(events[j]))
    && (forall i :: 0 <= i < |events| && events[i].Arrival? ==> events[i].de.dataId >= 0)
  }

  ghost predicate WaitedLess(s: State, limit: int) {
    forall e :: e in s.q_seq ==> e.arriveTime > limit
  }

  /** What one event does to the state. */
  ghost predicate Leads(s: State, s': State, e: Event, size: nat, maxWaitTime: int) {
    && Good(s', maxWaitTime) && s.sent <= s'.sent && |s'.q_seq| <= size
    && match e
       case Arrival(de) =>
         && s'.received == s.received + multiset{de} && (Ordered(s') <==> Ordered(s) && Fits(s, size, de.dataId))
         && (!(s.lastDataId == -1 || de.dataId == s.lastDataId + 1) ==> WaitedLess(s', de.arriveTime - maxWaitTime))
         && Received(s, s', de, size, maxWaitTime)
       case Release(time) =>
         && s'.received == s.received && (Ordered(s') <==> Ordered(s)) && WaitedLess(s', time - maxWaitTime)
         && (Ordered(s) ==> ReleasedExactly(s.q_seq, s.lastDataId, s.q_time, s'.q_seq, time - maxWaitTime))
  }

  ghost predicate Run(states: seq<State>, events: seq<Event>, size: nat, maxWaitTime: int) {
    |states| == |events| + 1 && forall k :: 0 <= k < |events| ==> Leads(states[k], states[k + 1], events[k], size, maxWaitTime)
  }

  ghost function Arrivals(events: seq<Event>): multiset<Element> {
    if events == [] then multiset{}
    else Arrivals(events[..|events| - 1]) + if events[|events| - 1].Arrival? then multiset{events[|events| - 1].de} else multiset{}
  }

  /** Every packet that arrives fits the state it meets. */
  ghost predicate AllFit(states: seq<State>, events: seq<Event>, size: nat) {
    forall k :: 0 <= k < |events| && k < |states| && events[k].Arrival? ==> Fits(states[k], size, events[k].de.dataId)
  }

  lemma MoreRun(states: seq<State>, events: seq<Event>, size: nat, maxWaitTime: int, s: State, e: Event)
    requires Run(states, events, size, maxWaitTime) && Leads(states[|events|], s, e, size, maxWaitTime)
    ensures Run(states + [s], events + [e], size, maxWaitTime)
  {
    hide Leads;
    var ss, es := states + [s], events + [e];
    forall k | 0 <= k < |es| ensures Leads(ss[k], ss[k + 1], es[k], size, maxWaitTime) {
      if k < |events| {
        assert ss[k] == states[k] && ss[k + 1] == states[k + 1] && es[k] == events[k];
      }
    }
  }

  /**
   * For every run of arrivals and releases: packets sent and queued are those that arrived, and the output, with what is
   * queued behind it, is in order at the end exactly if each packet fitted the state it met.
   */
  lemma {:induction false} RunMeans(states: seq<State>, events: seq<Event>, size: nat, maxWaitTime: int)
    requires Run(states, events, size, maxWaitTime) && Good(states[0], maxWaitTime) && states[0].received == multiset{} && Ordered(states[0])
    ensures |states| == |events| + 1
    ensures var s := states[|events|];
            && Good(s, maxWaitTime) && multiset(s.sent) + s.q_seq == s.received == Arrivals(events)
            && (Ordered(s) <==> AllFit(states, events, size)) && (Ordered(s) ==> Increasing(s.sent))
  {
    assert |states| == |events| + 1;
    hide Good, Ordered, Fits, Increasing, Leads, Run;
    var s := states[|events|];
    if events == [] {
    } else {
      var n := |events| - 1;
      LastOfRun(states, events, size, maxWaitTime);
      RunMeans(states[..n + 1], events[..n], size, maxWaitTime);
      LastFits(states, events, size);
      LeadsMeans(states[n], s, events[n], size, maxWaitTime);
      hide AllFit;
    }
    GoodSum(s, maxWaitTime);
    if Ordered(s) {
      OrderedSent(s);
    }
  }

  lemma LastOfRun(states: seq<State>, events: seq<Event>, size: nat, maxWaitTime: int)
    requires Run(states, events, size, maxWaitTime) && events != []
    ensures var n := |events| - 1;
            && |states| == n + 2 && Run(states[..n + 1], events[..n], size, maxWaitTime) && states[..n + 1][0] == states[0]
            && Leads(states[n], states[n + 1], events[n], size, maxWaitTime) && states[..n + 1][n] == states[n]
  {
    hide Leads;
    var n := |events| - 1;
    assert Leads(states[n], states[n + 1], events[n], size, maxWaitTime);
    forall k | 0 <= k < n ensures Leads(states[..n + 1][k], states[..n + 1][k + 1], events[..n][k], size, maxWaitTime) {
      assert Leads(states[k], states[k + 1], events[k], size, maxWaitTime);
    }
  }

  lemma LeadsMeans(s: State, s': State, e: Event, size: nat, maxWaitTime: int)
    requires Leads(s, s', e, size, maxWaitTime)
    ensures Good(s', maxWaitTime) && s'.received == s.received + if e.Arrival? then multiset{e.de} else multiset{}
    ensures Ordered(s') <==> Ordered(s) && (e.Arrival? ==> Fits(s, size, e.de.dataId))
  {
  }

  lemma LastFits(states: seq<State>, events: seq<Event>, size: nat)
    requires |states| == |events| + 1 && events != []
    ensures var n := |events| - 1;
            AllFit(states, events, size) <==>
            AllFit(states[..n + 1], events[..n], size) && (events[n].Arrival? ==> Fits(states[n], size, events[n].de.dataId))
  {
    hide Fits;
    var n := |events| - 1;
    assert forall k :: 0 <= k < n ==> states[..n + 1][k] == states[k] && events[..n][k] == events[k];
  }

  lemma GoodSum(s: State, maxWaitTime: int)
    requires Good(s, maxWaitTime)
    ensures multiset(s.sent) + s.q_seq == s.received
  {
  }

  lemma OrderedSent(s: State)
    requires Ordered(s)
    ensures Increasing(s.sent)
  {
  }

  /** Whenever the queue was released, no packet left in it has waited for the full time. */
  lemma RunWaits(states: seq<State>, events: seq<Event>, size: nat, maxWaitTime: int, k: nat)
    requires Run(states, events, size, maxWaitTime) && k < |events|
    requires events[k].Release? || !(states[k].lastDataId == -1 || events[k].de.dataId == states[k].lastDataId + 1)
    ensures WaitedLess(states[k + 1], TimeOf(events[k]) - maxWaitTime)
  {
    hide Good, Ordered, Fits, WaitedLess;
    assert Leads(states[k], states[k + 1], events[k], size, maxWaitTime);
  }

  lemma PrefixOfRun(states: seq<State>, events: seq<Event>, size: nat, maxWaitTime: int, k: nat)
    requires Run(states, events, size, maxWaitTime) && AllFit(states, events, size) && k <= |events|
    ensures Run(states[..k + 1], events[..k], size, maxWaitTime) && AllFit(states[..k + 1], events[..k], size)
  {
    hide Leads, Fits;
    forall i | 0 <= i < k ensures Leads(states[..k + 1][i], states[..k + 1][i + 1], events[..k][i], size, maxWaitTime) {
      assert Leads(states[i], states[i + 1], events[i], size, maxWaitTime);
    }
  }

  /** If each packet fits the state it meets, every release leaves exactly what is neither next in line nor due. */
  lemma RunReleases(states: seq<State>, events: seq<Event>, size: nat, maxWaitTime: int, k: nat)
    requires Run(states, events, size, maxWaitTime) && Good(states[0], maxWaitTime) && states[0].received == multiset{} && Ordered(states[0])
    requires AllFit(states, events, size) && k < |events| && events[k].Release?
    ensures |states| == |events| + 1 && |states[k + 1].q_seq| <= size
    ensures ReleasedExactly(states[k].q_seq, states[k].lastDataId, states[k].q_time, states[k + 1].q_seq, events[k].time - maxWaitTime)
  {
    assert |states| == |events| + 1 && Leads(states[k], states[k + 1], events[k], size, maxWaitTime);
    hide *;
    LeadsRelease(states[k], states[k + 1], events[k], size, maxWaitTime);
    PrefixOfRun(states, events, size, maxWaitTime, k);
    RunMeans(states[..k + 1], events[..k], size, maxWaitTime);
  }

  lemma LeadsRelease(s: State, s': State, e: Event, size: nat, maxWaitTime: int)
    requires Leads(s, s', e, size, maxWaitTime) && e.Release?
    ensures |s'.q_seq| <= size && (Ordered(s) ==> ReleasedExactly(s.q_seq, s.lastDataId, s.q_time, s'.q_seq, e.time - maxWaitTime))
  {
    hide Good, Ordered, ReleasedExactly, WaitedLess;
  }

  /** Any sequence of arrivals and releases makes such a run. */
  method RunAll(queueSize: nat, maxWaitTime: int, now: int, events: seq<Event>) returns (q: LltcResequenceQueue, ghost states: seq<State>)
    requires queueSize > 0 && InTime(events, now)
    ensures q.Valid() && Run(states, events, queueSize, maxWaitTime) && q.S() == states[|events|]
    ensures Good(states[0], maxWaitTime) && states[0].received == multiset{} && Ordered(states[0])
    ensures q.S().received == Arrivals(events) && (Ordered(q.S()) <==> AllFit(states, events, queueSize)) && (Ordered(q.S()) ==> Increasing(q.sent))
  {
    hide *;
    q := new LltcResequenceQueue(queueSize, maxWaitTime, now);
    q.SParts(q.S());
    states := [q.S()];
    NoEvents(q.S(), queueSize, maxWaitTime);
    for i := 0 to |events|
      invariant q.Valid() && q.size == queueSize && q.maxWaitTime == maxWaitTime && fresh(q)
      invariant |states| == i + 1 && states[i] == q.S() && Run(states, events[..i], queueSize, maxWaitTime)
      invariant Good(states[0], maxWaitTime) && states[0].received == multiset{} && Ordered(states[0])
      invariant q.S().clock <= if i == 0 then now else TimeOf(events[i - 1])
    {
      NextEvent(events, i, now);
      q.Handle(events[i]);
      MoreRun(states, events[..i], queueSize, maxWaitTime, q.S(), events[i]);
      states := states + [q.S()];
    }
    assert events[..|events|] == events;
    RunMeans(states, events, queueSize, maxWaitTime);
    q.SParts(q.S());
  }

  lemma NoEvents(s: State, size: nat, maxWaitTime: int)
    ensures Run([s], [], size, maxWaitTime)
  {
  }

  lemma NextEvent(events: seq<Event>, i: nat, now: int)
    requires InTime(events, now) && i < |events|
    ensures events[..i + 1] == events[..i] + [events[i]] && TimeOf(events[i]) >= if i == 0 then now else TimeOf(events[i - 1])
    ensures events[i].Arrival? ==> events[i].de.dataId >= 0
  {
    assert i > 0 ==> TimeOf(events[i - 1]) <= TimeOf(events[i]);
  }

  lemma AfterSendingParts(s: State, more: seq<Element>, q': multiset<Element>, now: int, forced': set<int>)
    ensures var s' := AfterSending(s, more, q', now, forced');
            && s'.q_seq == q' && s'.lastDataId == (if more == [] then s.lastDataId else more[|more| - 1].dataId) && s'.sent == s.sent + more
            && s'.q_time == s.q_time && s'.received == s.received && s'.clock == s.clock && s'.forced == forced'
  {
  }

  lemma AfterDirectParts(s: State, de: Element)
    ensures var s' := AfterDirect(s, de);
            && s'.q_seq == s.q_seq && s'.lastDataId == de.dataId && s'.sent == s.sent + [de] && s'.q_time == s.q_time
            && s'.received == s.received + multiset{de} && s'.clock == de.arriveTime && s'.forced == s.forced
  {
  }

  lemma AfterQueueingParts(s: State, de: Element)
    ensures var s' := AfterQueueing(s, de);
            && s'.q_seq == s.q_seq + multiset{de} && s'.lastDataId == s.lastDataId && s'.sent == s.sent && s'.q_time == s.q_time + [de]
            && s'.received == s.received + multiset{de} && s'.clock == de.arriveTime && s'.forced == s.forced
  {
  }

  lemma EmptyNone(q: multiset<Element>)
    requires |q| == 0
    ensures forall e :: e !in q
  {
  }

  lemma GoodQueued(s: State, maxWaitTime: int)
    requires Good(s, maxWaitTime)
    ensures Queued(s.q_seq, s.q_time, s.received, s.clock)
  {
  }

  lemma NaturalIds(s: State, maxWaitTime: int)
    requires Good(s, maxWaitTime)
    ensures UpTo([], s.q_seq, -1)
  {
  }

  lemma SentSome(s: State, maxWaitTime: int)
    requires Good(s, maxWaitTime) && s.lastDataId != -1
    ensures s.sent != []
  {
  }

  lemma TopTaken(q: multiset<Element>, d: Element)
    requires IsTop(q, d)
    ensures Taken([d], q, q - multiset{d}) && [d] != [] && [d][|[d]| - 1].dataId == d.dataId
  {
  }

  lemma FitsRoomy(s: State, size: nat, dataId: int)
    requires |s.q_seq| != size && s.lastDataId != -1
    ensures Fits(s, size, dataId) <==> dataId > s.lastDataId && forall e :: e in s.q_seq ==> e.dataId != dataId
  {
  }
}