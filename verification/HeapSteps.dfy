/**
 * What the operations of the heap do to the fields of its nodes, as functions of the fields and the keys alone.  Two heaps
 * with the same fields and keys stay the same under the same operations, so that searches over equal graphs break ties alike.
 */
module HeapSteps {
  /** The null pointer. */
  const NIL: int := -1

  /** The size hard-coded in degreewiseMerge. */
  const DEGREE_TABLE_SIZE: nat := 45

  /** The fields of all nodes, each table indexed by node. */
  datatype Links = Links(left: seq<int>, right: seq<int>, child: seq<int>, parent: seq<int>,
                         degree: seq<int>, mark: seq<bool>)

  datatype Heap = Heap(links: Links, maxNode: int)

  ghost function At(s: seq<int>, i: int): int {
    if 0 <= i < |s| then s[i] else NIL
  }

  ghost function Put<T>(s: seq<T>, i: int, v: T): seq<T> {
    if 0 <= i < |s| then s[i := v] else s
  }

  // -------------------------------------------------------------------------------- one node

  /** `x` is taken out of its list. */
  ghost function Out(k: Links, x: int): Links {
    var right := Put(k.right, At(k.left, x), At(k.right, x));
    k.(left := Put(k.left, At(right, x), At(k.left, x)), right := right)
  }

  /** `x` is put to the right of `m`. */
  ghost function After(k: Links, m: int, x: int): Links {
    var right := Put(Put(k.right, x, At(k.right, m)), m, x);
    k.(left := Put(Put(k.left, x, m), At(right, x), x), right := right)
  }

  ghost function ToRoots(k: Links, x: int, m: int): Links {
    After(Out(k, x).(parent := Put(k.parent, x, NIL)), m, x)
  }

  ghost function CutOut(k: Links, x: int, y: int, m: int): Links {
    var degree := Put(k.degree, y, At(k.degree, y) - 1);
    var child := if At(k.child, y) == x then Put(k.child, y, At(k.right, x)) else k.child;
    ToRoots(k, x, m).(degree := degree, child := if At(degree, y) == 0 then Put(child, y, NIL) else child, mark := Put(k.mark, x, false))
  }

  /** Marks `y`, or cuts it out and goes on with its parent. */
  ghost function CutUp(k: Links, y: int, m: int): Links
    decreases multiset(k.mark)[true]
  {
    var x := At(k.parent, y);
    if x == NIL || !(0 <= y < |k.mark|) then k
    else if !k.mark[y] then k.(mark := k.mark[y := true])
    else CutUp(CutOut(k, y, x, m), x, m)
  }

  ghost function Below(k: Links, y: int, x: int): Links {
    var k1, c := Out(k, y).(parent := Put(k.parent, y, x)), At(k.child, x);
    if c == NIL then k1.(child := Put(k.child, x, y), left := Put(k1.left, y, y), right := Put(k1.right, y, y)) else After(k1, c, y)
  }

  ghost function ChildMade(k: Links, y: int, x: int): Links {
    Below(k, y, x).(degree := Put(k.degree, x, At(k.degree, x) + 1), mark := Put(k.mark, y, false))
  }

  // --------------------------------------------------------------------------- consolidation

  ghost function Walked(right: seq<int>, m: int, n: nat): int {
    if n == 0 then m else At(right, Walked(right, m, n - 1))
  }

  /** `n` steps to the right lead back to `m`, and no fewer do. */
  ghost predicate IsRound(right: seq<int>, m: int, n: int) {
    n >= 1 && Walked(right, m, n) == m && forall i :: 0 < i < n ==> Walked(right, m, i) != m
  }

  ghost function Round(right: seq<int>, m: int): int {
    if exists n :: IsRound(right, m, n) then var n :| IsRound(right, m, n); n else 0
  }

  lemma RoundIs(right: seq<int>, m: int, n: int)
    requires IsRound(right, m, n)
    ensures Round(right, m) == n
  {
    assert IsRound(right, m, Round(right, m));
  }

  datatype Slot = Slot(links: Links, table: seq<int>, x: int, d: int)

  /** Joins the root `x` with those of its degree until the slot of its degree is free. */
  ghost function Joined(k: Links, keys: seq<int>, table: seq<int>, x: int, d: int): Slot
    decreases |table| - d
  {
    if !(0 <= d < |table|) || table[d] == NIL then Slot(k, table, x, d)
    else
      var y := table[d];
      if At(keys, x) > At(keys, y) then Joined(ChildMade(k, x, y), keys, table[d := NIL], y, d + 1)
      else Joined(ChildMade(k, y, x), keys, table[d := NIL], x, d + 1)
  }

  datatype Roots = Roots(links: Links, table: seq<int>)

  ghost function JoinedAll(k: Links, keys: seq<int>, table: seq<int>, x: int, n: int): Roots
    decreases n
  {
    if n <= 0 then Roots(k, table)
    else
      var r := Joined(k, keys, table, x, At(k.degree, x));
      JoinedAll(r.links, keys, Put(r.table, r.d, r.x), At(k.right, x), n - 1)
  }

  /** Collects the roots of the table from the i-th slot on, and finds the maximal one. */
  ghost function Collected(k: Links, keys: seq<int>, table: seq<int>, i: int, m: int): Heap
    decreases |table| - i
  {
    if !(0 <= i < |table|) then Heap(k, m)
    else
      var y := table[i];
      if y == NIL then Collected(k, keys, table, i + 1, m)
      else if m == NIL then Collected(k, keys, table, i + 1, y)
      else Collected(After(Out(k, y), m, y), keys, table, i + 1, if At(keys, y) < At(keys, m) then y else m)
  }

  ghost function NoRoots(): seq<int> {
    seq(DEGREE_TABLE_SIZE, _ => NIL)
  }

  ghost function MergedRoots(k: Links, m: int, keys: seq<int>): Roots {
    JoinedAll(k, keys, NoRoots(), m, Round(k.right, m))
  }

  ghost function Consolidated(k: Links, m: int, keys: seq<int>): Heap {
    var r := MergedRoots(k, m, keys);
    Collected(r.links, keys, r.table, 0, NIL)
  }

  // ------------------------------------------------------------------------------ operations

  ghost function Entered(k: Links, o: int, m: int): Links {
    var k0 := k.(left := Put(k.left, o, o), right := Put(k.right, o, o), parent := Put(k.parent, o, NIL),
                 child := Put(k.child, o, NIL), degree := Put(k.degree, o, 0), mark := Put(k.mark, o, false));
    if m != NIL then After(k0, m, o) else k0
  }

  /** The first `n` children of `z`, from `x` on, become roots. */
  ghost function Freed(k: Links, z: int, x: int, n: int): Links
    decreases n
  {
    if n <= 0 then k else Freed(ToRoots(k, x, z), z, At(k.right, x), n - 1)
  }

  ghost function Removed(k: Links, z: int, keys: seq<int>): Heap {
    var k1 := Out(Freed(k, z, At(k.child, z), At(k.degree, z)), z);
    if At(k1.right, z) == z then Heap(k1, NIL) else Consolidated(k1, At(k1.right, z), keys)
  }

  ghost function Raised(k: Links, x: int, m: int, keys: seq<int>): Links {
    var y := At(k.parent, x);
    if y != NIL && At(keys, x) < At(keys, y) then CutUp(CutOut(k, x, y, m), y, m) else k
  }

  ghost function WithNode(h: Heap, keys: seq<int>, o: int): Heap {
    Heap(Entered(h.links, o, h.maxNode), if h.maxNode == NIL || At(keys, o) < At(keys, h.maxNode) then o else h.maxNode)
  }

  ghost function WithRaised(h: Heap, keys: seq<int>, x: int): Heap {
    Heap(Raised(h.links, x, h.maxNode, keys), if At(keys, x) < At(keys, h.maxNode) then x else h.maxNode)
  }

  ghost function WithoutMax(h: Heap, keys: seq<int>): Heap {
    if h.maxNode == NIL then h else Removed(h.links, h.maxNode, keys)
  }

  ghost function Empty(n: nat): Heap {
    var none := seq(n, _ => NIL);
    Heap(Links(none, none, none, none, seq(n, _ => 0), seq(n, _ => false)), NIL)
  }

  /** The heap after the nodes below `n` were inserted in order. */
  ghost function Filled(keys: seq<int>, n: nat): Heap {
    if n == 0 then Empty(|keys|) else WithNode(Filled(keys, n - 1), keys, n - 1)
  }
}
