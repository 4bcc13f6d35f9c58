/** A filter for packets seen before, which keeps their ids as a sorted list of intervals. */
module PaList {

  /** The ids from `id` to `id + len`. */
  datatype Interval = Interval(id: int, len: int)

  const ID_LIMIT: int := 0x1_0000

  ghost predicate Within(v: Interval, x: int) {
    v.id <= x <= v.id + v.len
  }

  ghost predicate Covers(list: seq<Interval>, x: int) {
    exists i :: 0 <= i < |list| && Within(list[i], x)
  }

  /** Non-empty intervals of 16-bit ids, one after the other. */
  ghost predicate Sorted(list: seq<Interval>) {
    && (forall i :: 0 <= i < |list| ==> 0 <= list[i].id <= list[i].id + list[i].len < ID_LIMIT)
    && (forall i, j :: 0 <= i < j < |list| ==> list[i].id + list[i].len < list[j].id)
  }

  /** `k` is the last interval that does not start after `id`, or -1. */
  ghost predicate Found(list: seq<Interval>, id: int, k: int) {
    && -1 <= k < |list|
    && (forall i :: 0 <= i <= k ==> list[i].id <= id)
    && (forall i :: k < i < |list| ==> list[i].id > id)
  }

  lemma FoundCovers(list: seq<Interval>, id: int, k: int)
    requires Sorted(list) && Found(list, id, k)
    ensures Covers(list, id) <==> k >= 0 && Within(list[k], id)
  {
  }

  /** `list'` is sorted and covers one id more. */
  ghost predicate OneMore(list: seq<Interval>, list': seq<Interval>, id: int) {
    Sorted(list') && forall x :: Covers(list', x) <==> Covers(list, x) || x == id
  }

  /** No interval touches the next one, so that there are as few as can be. */
  ghost predicate Compact(list: seq<Interval>) {
    forall j :: 0 < j < |list| ==> list[j - 1].id + list[j - 1].len + 1 < list[j].id
  }

  lemma CoversSplit(a: seq<Interval>, b: seq<Interval>, x: int)
    ensures Covers(a + b, x) <==> Covers(a, x) || Covers(b, x)
  {
    if Covers(a, x) {
      var i :| 0 <= i < |a| && Within(a[i], x);
      assert Within((a + b)[i], x);
    }
    if Covers(b, x) {
      var i :| 0 <= i < |b| && Within(b[i], x);
      assert Within((a + b)[|a| + i], x);
    }
  }

  lemma CoversOne(v: Interval, x: int)
    ensures Covers([v], x) <==> Within(v, x)
  {
    assert [v][0] == v;
  }

  lemma ReplacedCovers(a: seq<Interval>, mid: seq<Interval>, b: seq<Interval>, v: Interval, id: int, x: int)
    requires Within(v, x) <==> Covers(mid, x) || x == id
    ensures Covers(a + [v] + b, x) <==> Covers(a + mid + b, x) || x == id
  {
    hide Covers, Within;
    CoversSplit(a + mid, b, x);
    CoversSplit(a, mid, x);
    CoversSplit(a + [v], b, x);
    CoversSplit(a, [v], x);
    CoversOne(v, x);
  }

  lemma SortedSlices(list: seq<Interval>, k: nat, m: nat)
    requires Sorted(list) && k <= m <= |list|
    ensures Sorted(list[..k]) && Sorted(list[m..])
    ensures forall i, j :: 0 <= i < k && 0 <= j < |list| - m ==> list[..k][i].id + list[..k][i].len < list[m..][j].id
  {
  }

  lemma SortedParts(a: seq<Interval>, mid: seq<Interval>, b: seq<Interval>)
    requires Sorted(a + mid + b)
    ensures Sorted(a) && Sorted(b) && forall i, j :: 0 <= i < |a| && 0 <= j < |b| ==> a[i].id + a[i].len < b[j].id
  {
    hide Sorted;
    var list := a + mid + b;
    SortedSlices(list, |a|, |a| + |mid|);
    assert list[..|a|] == a && list[|a| + |mid|..] == b;
  }

  lemma SortedJoined(a: seq<Interval>, v: Interval, b: seq<Interval>)
    requires Sorted(a) && Sorted(b) && 0 <= v.id <= v.id + v.len < ID_LIMIT
    requires forall i, j :: 0 <= i < |a| && 0 <= j < |b| ==> a[i].id + a[i].len < b[j].id
    requires a != [] ==> a[|a| - 1].id + a[|a| - 1].len < v.id
    requires b != [] ==> v.id + v.len < b[0].id
    ensures Sorted(a + [v] + b)
  {
    var list', n := a + [v] + b, |a|;
    forall i, j | 0 <= i < j < |list'| ensures list'[i].id + list'[i].len < list'[j].id {
      if j < n {
        assert list'[i] == a[i] && list'[j] == a[j];
      } else if j == n {
        assert list'[i] == a[i] && (i < n - 1 ==> a[i].id + a[i].len < a[n - 1].id);
      } else if i == n {
        assert list'[j] == b[j - n - 1] && (j > n + 1 ==> b[0].id + b[0].len < b[j - n - 1].id);
      } else if i < n {
        assert list'[i] == a[i] && list'[j] == b[j - n - 1];
      } else {
        assert list'[i] == b[i - n - 1] && list'[j] == b[j - n - 1];
      }
    }
  }

  /** Replacing a stretch of the list by one interval that covers what the stretch did and one id more. */
  lemma Replaced(a: seq<Interval>, mid: seq<Interval>, b: seq<Interval>, v: Interval, id: int)
    requires Sorted(a + mid + b) && 0 <= v.id <= v.id + v.len < ID_LIMIT
    requires forall x :: Within(v, x) <==> Covers(mid, x) || x == id
    requires a != [] ==> a[|a| - 1].id + a[|a| - 1].len < v.id
    requires b != [] ==> v.id + v.len < b[0].id
    ensures OneMore(a + mid + b, a + [v] + b, id)
  {
    hide Covers, Within, Sorted;
    forall x ensures Covers(a + [v] + b, x) <==> Covers(a + mid + b, x) || x == id {
      ReplacedCovers(a, mid, b, v, id, x);
    }
    SortedParts(a, mid, b);
    SortedJoined(a, v, b);
  }

  class PaList {
    var paList: seq<Interval>
    /** The ids asked about so far. */
    ghost var seen: set<int>

    ghost predicate Valid()
      reads this
    {
      Sorted(paList) && forall x :: Covers(paList, x) <==> x in seen
    }

    constructor ()
      ensures Valid() && seen == {} && paList == []
    {
      paList, seen := [], {};
    }

    /** Whether the id is seen for the first time. */
    method CheckPacket(id: int) returns (isNew: bool)
      requires Valid() && 0 <= id < ID_LIMIT
      modifies this
      ensures Valid() && seen == old(seen) + {id} && isNew == (id !in old(seen))
      ensures |paList| == |old(paList)| + if isNew then MoreIntervals(old(seen), id) else 0
      ensures old(Compact(paList)) ==> (Compact(paList) <==> !(isNew && BeforeFirst(old(seen), id)))
    {
      hide Sorted, Covers, OneMore, Within, Compact, BeforeFirst, EndsBefore, StartsAfter;
      var idx := FindInterval(id);
      FoundCovers(paList, id, idx);
      var has := HasId(idx, id);
      if has {
        assert seen == seen + {id};
        return false;
      } else {
        var list := AddId(idx, id);
        Touching(paList, seen, id, idx);
        OneMoreCovers(paList, list, id);
        paList, seen := list, seen + {id};
        return true;
      }
    }

    method FindInterval(id: int) returns (k: int)
      requires Sorted(paList)
      ensures Found(paList, id, k)
    {
      hide Within;
      var n := |paList|;
      if n == 0 || paList[0].id > id {
        assert forall i :: 0 < i < n ==> paList[0].id <= paList[0].id + paList[0].len < paList[i].id;
        return -1;
      }
      var i := 0;
      while i < n
        invariant 0 <= i <= n && forall j :: 0 <= j < i ==> paList[j].id <= id
      {
        var inter := paList[i];
        if inter.id > id {
          assert forall j :: i < j < n ==> paList[i].id + paList[i].len < paList[j].id;
          break;
        }
        i := i + 1;
      }
      k := i - 1;
    }

    method HasId(i: int, id: int) returns (r: bool)
      requires -1 <= i < |paList|
      ensures r <==> i >= 0 && Within(paList[i], id)
    {
      if i == -1 || i == |paList| { return false; }
      var inter := paList[i];
      r := inter.id <= id && inter.id + inter.len >= id;
    }

    /** The list with one id more.  A new first interval is not joined to the next one even if it touches it. */
    method AddId(i: int, id: int) returns (list: seq<Interval>)
      requires Sorted(paList) && Found(paList, id, i) && 0 <= id < ID_LIMIT && (i >= 0 ==> !Within(paList[i], id))
      ensures OneMore(paList, list, id)
      ensures |list| == |paList| + 1 - (if EndsBefore(paList, i, id) then 1 else 0) - if i >= 0 && StartsAfter(paList, i, id) then 1 else 0
      ensures Compact(paList) ==> (Compact(list) <==> !(i == -1 && StartsAfter(paList, i, id)))
    {
      hide *;
      list := paList;
      TouchesMean(paList, i, id);
      FirstFound(paList, id, i);
      if i >= 0 {
        GapsAt(paList, id, i);
      }
      if i == -1 {
        list := [Interval(id, 0)] + list;
        FirstCompact(paList, id);
        InsertedAt(paList, id, -1);
        assert paList[..0] + [Interval(id, 0)] + paList[0..] == list;
      } else if i == |paList| {
        // FindInterval does not return this.
        assert false;
      } else {
        var inter := list[i];
        if inter.id + inter.len > id {
          // The interval would hold the id.
          assert false;
        } else if inter.id + inter.len == id - 1 {
          if i < |list| - 1 && id == list[i + 1].id - 1 {
            var joined := Interval(inter.id, inter.len + 1 + list[i + 1].len + 1);
            JoinedAt(paList, id, i);
            CompactAt(paList, i, i + 2, joined);
            list := list[..i] + [joined] + list[i + 2..];
          } else {
            LongerAt(paList, id, i);
            CompactAt(paList, i, i + 1, Interval(inter.id, inter.len + 1));
            list := list[..i] + [Interval(inter.id, inter.len + 1)] + list[i + 1..];
          }
        } else if i < |list| - 1 && list[i + 1].id - 1 == id {
          if list[i + 1].id - inter.id - inter.len == 2 {
            // The gap would consist of the id alone, so that the interval would end just before it.
            assert false;
          } else {
            EarlierAt(paList, id, i);
            CompactAt(paList, i + 1, i + 2, Interval(list[i + 1].id - 1, list[i + 1].len + 1));
            list := list[..i + 1] + [Interval(list[i + 1].id - 1, list[i + 1].len + 1)] + list[i + 2..];
          }
        } else {
          InsertedAt(paList, id, i);
          CompactAt(paList, i + 1, i + 1, Interval(id, 0));
          list := list[..i + 1] + [Interval(id, 0)] + list[i + 1..];
        }
      }
    }
  }

  /** The interval ends just before the id. */
  ghost predicate EndsBefore(list: seq<Interval>, i: int, id: int) {
    0 <= i < |list| && list[i].id + list[i].len == id - 1
  }

  /** The next interval starts just after the id. */
  ghost predicate StartsAfter(list: seq<Interval>, i: int, id: int) {
    0 <= i + 1 < |list| && list[i + 1].id == id + 1
  }

  /** The id comes before all that were seen, and right before the first of them: then the intervals are not joined. */
  ghost predicate BeforeFirst(seen: set<int>, id: int) {
    id + 1 in seen && forall x :: x in seen ==> x > id
  }

  /** A new id makes one interval more, one that extends an interval none, and one that joins two of them one less. */
  ghost function MoreIntervals(seen: set<int>, id: int): int {
    1 - (if id - 1 in seen then 1 else 0) - if id + 1 in seen && !BeforeFirst(seen, id) then 1 else 0
  }

  lemma TouchesMean(list: seq<Interval>, i: int, id: int)
    ensures EndsBefore(list, i, id) <==> 0 <= i < |list| && list[i].id + list[i].len == id - 1
    ensures StartsAfter(list, i, id) <==> 0 <= i + 1 < |list| && list[i + 1].id == id + 1
  {
  }

  lemma FirstFound(list: seq<Interval>, id: int, i: int)
    requires Found(list, id, i)
    ensures -1 <= i < |list|
  {
  }

  lemma FirstCompact(list: seq<Interval>, id: int)
    requires Sorted(list) && Found(list, id, -1)
    ensures Compact(list) ==> (Compact([Interval(id, 0)] + list) <==> !StartsAfter(list, -1, id))
  {
    var list' := [Interval(id, 0)] + list;
    assert list'[0] == Interval(id, 0) && forall j :: 0 < j < |list'| ==> list'[j] == list[j - 1];
    if Compact(list) && !StartsAfter(list, -1, id) {
      forall j | 0 < j < |list'| ensures list'[j - 1].id + list'[j - 1].len + 1 < list'[j].id {
        if j > 1 { assert list'[j - 1] == list[j - 2]; }
      }
    }
    if StartsAfter(list, -1, id) {
      assert list'[1] == list[0];
    }
  }

  /** An interval in place of a stretch of the list touches nothing if it touches neither side. */
  lemma CompactReplaced(a: seq<Interval>, mid: seq<Interval>, b: seq<Interval>, v: Interval)
    requires Compact(a + mid + b)
    requires a != [] ==> a[|a| - 1].id + a[|a| - 1].len + 1 < v.id
    requires b != [] ==> v.id + v.len + 1 < b[0].id
    ensures Compact(a + [v] + b)
  {
    var list, list' := a + mid + b, a + [v] + b;
    forall j | 0 < j < |list'| ensures list'[j - 1].id + list'[j - 1].len + 1 < list'[j].id {
      if j < |a| {
        assert list[j - 1] == a[j - 1] && list[j] == a[j];
      } else if j > |a| + 1 {
        var k := j - |a| - 1;
        assert list'[j] == b[k] && list'[j - 1] == b[k - 1];
        assert list[|a| + |mid| + k] == b[k] && list[|a| + |mid| + k - 1] == b[k - 1];
      }
    }
  }

  /** The interval `v` in place of the intervals from the k-th up to the m-th. */
  lemma CompactAt(list: seq<Interval>, k: int, m: int, v: Interval)
    requires 0 <= k <= m <= |list|
    requires Compact(list) && k > 0 ==> list[k - 1].id + list[k - 1].len + 1 < v.id
    requires Compact(list) && m < |list| ==> v.id + v.len + 1 < list[m].id
    ensures Compact(list) ==> Compact(list[..k] + [v] + list[m..])
    ensures |list[..k] + [v] + list[m..]| == |list| + 1 - (m - k)
  {
    hide Compact;
    if Compact(list) {
      assert list[..k] + list[k..m] + list[m..] == list;
      CompactReplaced(list[..k], list[k..m], list[m..], v);
    }
  }

  /** Where a new id goes, it touches nothing more. */
  lemma GapsAt(list: seq<Interval>, id: int, i: int)
    requires Sorted(list) && Found(list, id, i) && i >= 0 && !Within(list[i], id)
    ensures i < |list| && list[i].id + list[i].len < id && (i + 1 < |list| ==> id < list[i + 1].id)
    ensures Compact(list) ==>
              && (i > 0 ==> list[i - 1].id + list[i - 1].len + 1 < list[i].id)
              && (i + 1 < |list| ==> list[i].id + list[i].len + 1 < list[i + 1].id)
              && (i + 2 < |list| ==> list[i + 1].id + list[i + 1].len + 1 < list[i + 2].id)
  {
  }

  /** Whether an interval touches the id shows in what was seen. */
  lemma Touching(list: seq<Interval>, seen: set<int>, id: int, i: int)
    requires Sorted(list) && Found(list, id, i) && !Covers(list, id) && forall x :: Covers(list, x) <==> x in seen
    ensures EndsBefore(list, i, id) <==> id - 1 in seen
    ensures StartsAfter(list, i, id) <==> id + 1 in seen
    ensures id + 1 in seen ==> (i == -1 <==> BeforeFirst(seen, id))
    ensures BeforeFirst(seen, id) ==> i == -1 && StartsAfter(list, i, id)
  {
    if id - 1 in seen {
      var j :| 0 <= j < |list| && Within(list[j], id - 1);
      assert j <= i && !Within(list[j], id);
    }
    if id + 1 in seen {
      var j :| 0 <= j < |list| && Within(list[j], id + 1);
      assert !Within(list[j], id);
    }
    if i >= 0 {
      assert Within(list[i], list[i].id) && Covers(list, list[i].id);
    } else {
      forall x | x in seen ensures x > id {
        var j :| 0 <= j < |list| && Within(list[j], x);
      }
    }
    if EndsBefore(list, i, id) { assert Within(list[i], id - 1) && Covers(list, id - 1); }
    if StartsAfter(list, i, id) { assert Within(list[i + 1], id + 1) && Covers(list, id + 1); }
  }

  lemma OneMoreCovers(list: seq<Interval>, list': seq<Interval>, id: int)
    requires OneMore(list, list', id)
    ensures Sorted(list') && forall x :: Covers(list', x) <==> Covers(list, x) || x == id
  {
  }

  lemma NothingCovered(id: int)
    ensures forall x :: Within(Interval(id, 0), x) <==> Covers([], x) || x == id
  {
  }

  lemma Inserted(a: seq<Interval>, b: seq<Interval>, id: int)
    requires Sorted(a + b) && 0 <= id < ID_LIMIT
    requires a != [] ==> a[|a| - 1].id + a[|a| - 1].len < id
    requires b != [] ==> id < b[0].id
    ensures OneMore(a + b, a + [Interval(id, 0)] + b, id)
  {
    hide Sorted, Covers, OneMore, Within;
    var none: seq<Interval> := [];
    assert a + none == a;
    NothingCovered(id);
    Replaced(a, none, b, Interval(id, 0), id);
  }

  lemma InsertedAt(list: seq<Interval>, id: int, i: int)
    requires Sorted(list) && Found(list, id, i) && 0 <= id < ID_LIMIT && (i >= 0 ==> !Within(list[i], id))
    ensures OneMore(list, list[..i + 1] + [Interval(id, 0)] + list[i + 1..], id)
  {
    assert -1 <= i < |list|;
    hide *;
    InsertedCut(list, list[..i + 1], list[i + 1..], id, i);
  }

  lemma InsertedCut(list: seq<Interval>, a: seq<Interval>, b: seq<Interval>, id: int, i: int)
    requires Sorted(list) && Found(list, id, i) && 0 <= id < ID_LIMIT && (i >= 0 ==> !Within(list[i], id))
    requires -1 <= i < |list| && a == list[..i + 1] && b == list[i + 1..]
    ensures OneMore(list, a + [Interval(id, 0)] + b, id)
  {
    assert a != [] ==> a[|a| - 1].id + a[|a| - 1].len < id;
    assert b != [] ==> id < b[0].id;
    hide *;
    assert a + b == list;
    Inserted(a, b, id);
  }

  lemma LongerAt(list: seq<Interval>, id: int, i: int)
    requires Sorted(list) && Found(list, id, i) && 0 <= id < ID_LIMIT && i >= 0 && list[i].id + list[i].len == id - 1
    ensures OneMore(list, list[..i] + [Interval(list[i].id, list[i].len + 1)] + list[i + 1..], id)
  {
    var a, b, v := list[..i], list[i + 1..], Interval(list[i].id, list[i].len + 1);
    assert a + [list[i]] + b == list;
    forall x ensures Within(v, x) <==> Covers([list[i]], x) || x == id {
      CoversOne(list[i], x);
    }
    hide Covers;
    Replaced(a, [list[i]], b, v, id);
  }

  lemma JoinedAt(list: seq<Interval>, id: int, i: int)
    requires Sorted(list) && Found(list, id, i) && 0 <= id < ID_LIMIT && 0 <= i < |list| - 1
    requires list[i].id + list[i].len == id - 1 && list[i + 1].id == id + 1
    ensures OneMore(list, list[..i] + [Interval(list[i].id, list[i].len + 1 + list[i + 1].len + 1)] + list[i + 2..], id)
  {
    var a, b, v := list[..i], list[i + 2..], Interval(list[i].id, list[i].len + 1 + list[i + 1].len + 1);
    assert a + ([list[i]] + [list[i + 1]]) + b == list;
    forall x ensures Within(v, x) <==> Covers([list[i]] + [list[i + 1]], x) || x == id {
      CoversSplit([list[i]], [list[i + 1]], x);
      CoversOne(list[i], x);
      CoversOne(list[i + 1], x);
    }
    hide Covers;
    Replaced(a, [list[i]] + [list[i + 1]], b, v, id);
  }

  lemma EarlierAt(list: seq<Interval>, id: int, i: int)
    requires Sorted(list) && Found(list, id, i) && 0 <= id < ID_LIMIT && 0 <= i < |list| - 1 && !Within(list[i], id) && list[i + 1].id == id + 1
    ensures OneMore(list, list[..i + 1] + [Interval(list[i + 1].id - 1, list[i + 1].len + 1)] + list[i + 2..], id)
  {
    var a, b, v := list[..i + 1], list[i + 2..], Interval(list[i + 1].id - 1, list[i + 1].len + 1);
    assert a + [list[i + 1]] + b == list;
    forall x ensures Within(v, x) <==> Covers([list[i + 1]], x) || x == id {
      CoversOne(list[i + 1], x);
    }
    hide Covers;
    Replaced(a, [list[i + 1]], b, v, id);
  }

  /** Two ids that follow on each other, the larger one first: they stay two intervals. */
  method NotJoined() returns (list: seq<Interval>)
    ensures |list| == 2 && !Compact(list)
  {
    hide Sorted, Covers, OneMore, Within;
    var filter := new PaList();
    assert Compact(filter.paList);
    hide Compact;
    var isNew := filter.CheckPacket(10);
    assert filter.seen == {10};
    isNew := filter.CheckPacket(9);
    list := filter.paList;
  }
}
