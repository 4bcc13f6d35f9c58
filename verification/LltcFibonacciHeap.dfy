/**
 * The hand-written Fibonacci heap behind both route searches.  A node is named by the object it
 * holds, an index into the key table that the search owns; its links, degree and mark are the
 * entries of the heap's link tables at that index.
 */
module LltcFibonacciHeap {
  import opened FibonacciForest
  import opened HeapSteps

  // ------------------------------------------------------------ circular lists

  ghost predicate Within(s: seq<int>, n: nat) {
    forall i :: 0 <= i < |s| ==> 0 <= s[i] < n
  }

  /** `s` lists a circular doubly linked list, in the order of the right links. */
  ghost predicate IsRing(s: seq<int>, left: seq<int>, right: seq<int>) {
    && |left| == |right| && Within(s, |left|)
    && (forall i {:trigger right[s[i]]} :: 0 <= i < |s| - 1 ==> right[s[i]] == s[i + 1])
    && (forall i {:trigger left[s[i]]} :: 1 <= i < |s| ==> left[s[i]] == s[i - 1])
    && (|s| > 0 ==> right[s[|s| - 1]] == s[0] && left[s[0]] == s[|s| - 1])
  }

  ghost function Rotated(s: seq<int>, k: nat): seq<int>
    requires k <= |s|
  {
    s[k..] + s[..k]
  }

  lemma RotatedRing(s: seq<int>, left: seq<int>, right: seq<int>, k: nat)
    requires k <= |s| && IsRing(s, left, right)
    ensures IsRing(Rotated(s, k), left, right)
  {
  }

  lemma RotatedNoDup(s: seq<int>, k: nat)
    requires k <= |s| && NoDup(s)
    ensures NoDup(Rotated(s, k))
    ensures forall x :: x in s <==> x in Rotated(s, k)
  {
    assert s == s[..k] + s[k..];
  }

  lemma RingNeighbours(s: seq<int>, left: seq<int>, right: seq<int>, x: int)
    requires IsRing(s, left, right) && NoDup(s) && x in s
    ensures left[x] in s && right[x] in s && (right[x] == x <==> |s| == 1)
  {
  }

  /** The link tables after taking `x` out of its list. */
  ghost function UnlinkedRight(left: seq<int>, right: seq<int>, x: int): seq<int>
    requires 0 <= x < |left| == |right| && 0 <= left[x] < |left|
  {
    right[left[x] := right[x]]
  }

  ghost function UnlinkedLeft(left: seq<int>, right: seq<int>, x: int): seq<int>
    requires 0 <= x < |left| == |right| && 0 <= right[x] < |left|
  {
    left[right[x] := left[x]]
  }

  lemma RingDropFirst(s: seq<int>, left: seq<int>, right: seq<int>)
    requires IsRing(s, left, right) && NoDup(s) && |s| > 0
    ensures 0 <= s[0] < |left| == |right| && 0 <= left[s[0]] < |left| && 0 <= right[s[0]] < |left|
    ensures IsRing(s[1..], UnlinkedLeft(left, right, s[0]), UnlinkedRight(left, right, s[0]))
  {
  }

  lemma RingUnlink(s: seq<int>, left: seq<int>, right: seq<int>, x: int)
    requires IsRing(s, left, right) && NoDup(s) && x in s
    ensures 0 <= left[x] < |left| && 0 <= right[x] < |left|
    ensures IsRing(Without(s, x), UnlinkedLeft(left, right, x), UnlinkedRight(left, right, x))
  {
    hide IsRing, NoDup, Within;
    var k := IndexOf(s, x);
    var t := Rotated(s, k);
    assert t[0] == x && t[1..] == s[k + 1..] + s[..k];
    RotatedRing(s, left, right, k);
    RotatedNoDup(s, k);
    RingDropFirst(t, left, right);
    RotatedRing(t[1..], UnlinkedLeft(left, right, x), UnlinkedRight(left, right, x), |s| - 1 - k);
    assert Rotated(t[1..], |s| - 1 - k) == Without(s, x);
  }

  /** The link tables after putting `x` to the right of `m`. */
  ghost function LinkedRight(right: seq<int>, m: int, x: int): seq<int>
    requires 0 <= x < |right| && 0 <= m < |right|
  {
    right[x := right[m]][m := x]
  }

  ghost function LinkedLeft(left: seq<int>, right: seq<int>, m: int, x: int): seq<int>
    requires 0 <= x < |left| == |right| && 0 <= m < |left| && 0 <= right[m] < |left|
  {
    left[x := m][right[m] := x]
  }

  lemma RingAddLast(s: seq<int>, left: seq<int>, right: seq<int>, x: int)
    requires IsRing(s, left, right) && NoDup(s) && |s| > 0 && x !in s && 0 <= x < |left|
    ensures 0 <= s[|s| - 1] < |left| && 0 <= right[s[|s| - 1]] < |left|
    ensures IsRing(s + [x], LinkedLeft(left, right, s[|s| - 1], x), LinkedRight(right, s[|s| - 1], x))
  {
  }

  lemma RingLinkAfter(s: seq<int>, left: seq<int>, right: seq<int>, m: int, x: int)
    requires IsRing(s, left, right) && NoDup(s) && m in s && x !in s && 0 <= x < |left|
    ensures 0 <= m < |left| && 0 <= right[m] < |left|
    ensures IsRing(InsertAfter(s, m, x), LinkedLeft(left, right, m, x), LinkedRight(right, m, x))
  {
    hide IsRing, NoDup, Within;
    var k := IndexOf(s, m);
    var t := Rotated(s, k + 1);
    assert t[|t| - 1] == m && t + [x] == s[k + 1..] + s[..k + 1] + [x];
    RotatedRing(s, left, right, k + 1);
    RotatedNoDup(s, k + 1);
    RingAddLast(t, left, right, x);
    RotatedRing(t + [x], LinkedLeft(left, right, m, x), LinkedRight(right, m, x), |s| - k - 1);
    assert Rotated(t + [x], |s| - k - 1) == InsertAfter(s, m, x);
  }

  lemma RingApart(s: seq<int>, left: seq<int>, right: seq<int>, left': seq<int>, right': seq<int>)
    requires IsRing(s, left, right) && |left'| == |left| && |right'| == |right|
    requires forall x :: x in s ==> left'[x] == left[x] && right'[x] == right[x]
    ensures IsRing(s, left', right')
  {
  }

  /** Every node but `detached` lies in exactly the list below its parent. */
  ghost predicate Partitioned(nodes: set<int>, ring: map<int, seq<int>>, parent: seq<int>, detached: int) {
    && NIL !in nodes && ring.Keys == nodes + {NIL}
    && (forall x :: x in nodes ==> 0 <= x < |parent|)
    && (forall p, c {:trigger c in ring[p]} :: p in ring && c in ring[p] ==> c in nodes && c != detached && parent[c] == p)
    && (forall x :: x in nodes && x != detached ==> parent[x] in ring && x in ring[parent[x]])
    && (forall p :: p in ring ==> NoDup(ring[p]))
  }

  ghost predicate Rings(ring: map<int, seq<int>>, left: seq<int>, right: seq<int>) {
    forall p :: p in ring ==> IsRing(ring[p], left, right)
  }

  lemma UnlinkFacts(nodes: set<int>, ring: map<int, seq<int>>, parent: seq<int>, left: seq<int>, right: seq<int>, x: int, p: int)
    requires Partitioned(nodes, ring, parent, NIL) && Rings(ring, left, right) && x in nodes && |left| == |parent| && p == parent[x]
    ensures p in ring && x in ring[p] && NoDup(ring[p]) && IsRing(ring[p], left, right) && 0 <= x < |left| == |right|
    ensures left[x] in ring[p] && right[x] in ring[p] && (right[x] == x <==> |ring[p]| == 1)
    ensures forall q, c {:trigger c in ring[q]} :: q in ring && c in ring[q] && q != p ==> c !in ring[p] && 0 <= c < |left|
    ensures Partitioned(nodes, ring[p := Without(ring[p], x)], parent, x)
  {
    RingNeighbours(ring[p], left, right, x);
    assert IsRing(ring[p], left, right);
  }

  lemma LinkFacts(nodes: set<int>, ring: map<int, seq<int>>, parent: seq<int>, left: seq<int>, right: seq<int>, m: int, x: int, p: int)
    requires Partitioned(nodes, ring, parent, x) && Rings(ring, left, right) && x in nodes && |left| == |parent|
    requires p == parent[x] && p in ring && m in ring[p]
    ensures x !in ring[p] && NoDup(ring[p]) && IsRing(ring[p], left, right) && 0 <= x < |left| == |right|
    ensures right[m] in ring[p]
    ensures forall q, c {:trigger c in ring[q]} :: q in ring && c in ring[q] && q != p ==> c !in ring[p] && c != x && 0 <= c < |left|
    ensures Partitioned(nodes, ring[p := InsertAfter(ring[p], m, x)], parent, NIL)
  {
    RingNeighbours(ring[p], left, right, m);
  }

  /** Taking `x` out of its list, the one below `p`, leaves every list in order. */
  lemma Unlink(nodes: set<int>, ring: map<int, seq<int>>, parent: seq<int>, left: seq<int>, right: seq<int>, x: int, p: int)
    requires Partitioned(nodes, ring, parent, NIL) && Rings(ring, left, right) && x in nodes && |left| == |parent| && p == parent[x]
    ensures p in ring && x in ring[p] && 0 <= x < |left| == |right|
    ensures 0 <= left[x] < |left| && 0 <= right[x] < |left|
    ensures left[x] in ring[p] && right[x] in ring[p] && (right[x] == x <==> |ring[p]| == 1)
    ensures Partitioned(nodes, ring[p := Without(ring[p], x)], parent, x)
    ensures Rings(ring[p := Without(ring[p], x)], UnlinkedLeft(left, right, x), UnlinkedRight(left, right, x))
  {
    hide Partitioned, IsRing, NoDup, Within, Without;
    UnlinkFacts(nodes, ring, parent, left, right, x, p);
    RingUnlink(ring[p], left, right, x);
    var l, r := UnlinkedLeft(left, right, x), UnlinkedRight(left, right, x);
    forall q | q in ring && q != p ensures IsRing(ring[q], l, r) {
      RingApart(ring[q], left, right, l, r);
    }
  }

  /** Putting the detached node `x` to the right of `m`, in the list below `p`, leaves every list in order. */
  lemma LinkAfter(nodes: set<int>, ring: map<int, seq<int>>, parent: seq<int>, left: seq<int>, right: seq<int>, m: int, x: int, p: int)
    requires Partitioned(nodes, ring, parent, x) && Rings(ring, left, right) && x in nodes && |left| == |parent|
    requires p == parent[x] && p in ring && m in ring[p]
    ensures 0 <= x < |left| == |right| && 0 <= m < |left| && 0 <= right[m] < |left| && m != x
    ensures Partitioned(nodes, ring[p := InsertAfter(ring[p], m, x)], parent, NIL)
    ensures Rings(ring[p := InsertAfter(ring[p], m, x)], LinkedLeft(left, right, m, x), LinkedRight(right, m, x))
  {
    hide Partitioned, IsRing, NoDup, Within, InsertAfter;
    LinkFacts(nodes, ring, parent, left, right, m, x, p);
    RingLinkAfter(ring[p], left, right, m, x);
    var l, r := LinkedLeft(left, right, m, x), LinkedRight(right, m, x);
    forall q | q in ring && q != p ensures IsRing(ring[q], l, r) {
      RingApart(ring[q], left, right, l, r);
    }
  }

  /** `ring` gives the circular list below each node, and the root list below NIL. */
  datatype Shape = Shape(ring: map<int, seq<int>>, forest: Forest<int>)

  /** Parents and marks say what the forest says. */
  ghost predicate Fields(k: Links, f: Forest<int>) {
    && |k.mark| == |k.degree| == |k.child| == |k.parent|
    && (forall x :: x in f.nodes ==> 0 <= x < |k.parent| && k.parent[x] == if x in f.up then f.up[x] else NIL)
    && (forall x :: x in f.nodes ==> 0 <= x < |k.mark| && (k.mark[x] <==> x in f.marked))
  }

  /** Degrees and child pointers agree with the child lists; those of `e` may lag. */
  ghost predicate Counts(k: Links, g: Shape, e: int) {
    && (forall x :: x in g.forest.nodes ==> x in g.ring && x in g.forest.age && |g.forest.age[x]| == |g.ring[x]|)
    && (forall x :: x in g.forest.nodes && x != e ==>
         0 <= x < |k.degree| && 0 <= x < |k.child| && k.degree[x] == |g.ring[x]|
         && if k.degree[x] == 0 then k.child[x] == NIL else k.child[x] in g.ring[x])
  }

  ghost predicate Listed(k: Links, g: Shape) {
    && |k.left| == |k.right| == |k.parent|
    && Partitioned(g.forest.nodes, g.ring, k.parent, NIL)
    && Rings(g.ring, k.left, k.right)
  }

  ghost predicate Shaped(k: Links, g: Shape, e: int, short: set<int>) {
    Listed(k, g) && Fields(k, g.forest) && Counts(k, g, e) && WellFormed(g.forest, short)
  }

  lemma Reparented(nodes: set<int>, ring: map<int, seq<int>>, parent: seq<int>, x: int, p: int)
    requires Partitioned(nodes, ring, parent, x) && x in nodes
    ensures Partitioned(nodes, ring, parent[x := p], x)
  {
  }

  ghost function Moved(g: Shape, x: int, y: int, m: int): map<int, seq<int>>
    requires y in g.ring && x in g.ring[y] && NIL in g.ring && m in g.ring[NIL] && y != NIL
  {
    g.ring[y := Without(g.ring[y], x)][NIL := InsertAfter(g.ring[NIL], m, x)]
  }

  /** Takes `x` out of the list below `y` and puts it to the right of `m` in the root list. */
  method MoveToRoots(k: Links, x: int, y: int, m: int, ghost g: Shape) returns (k': Links)
    requires Listed(k, g) && x in g.forest.nodes && k.parent[x] == y && y != NIL && NIL in g.ring && m in g.ring[NIL]
    ensures y in g.ring && x in g.ring[y] && 0 <= x < |k.parent|
    ensures k' == k.(left := k'.left, right := k'.right, parent := k.parent[x := NIL]) && k' == ToRoots(k, x, m)
    ensures Listed(k', g.(ring := Moved(g, x, y, m)))
  {
    hide Partitioned, Rings, NoDup, IsRing, Within, Without, InsertAfter;
    var left, right, parent := k.left, k.right, k.parent;
    Unlink(g.forest.nodes, g.ring, parent, left, right, x, y);
    right := right[left[x] := right[x]];
    left := left[right[x] := left[x]];
    ghost var r := g.ring[y := Without(g.ring[y], x)];
    Reparented(g.forest.nodes, r, parent, x, NIL);
    parent := parent[x := NIL];
    LinkAfter(g.forest.nodes, r, parent, left, right, m, x, NIL);
    left := left[x := m];
    right := right[x := right[m]];
    right := right[m := x];
    left := left[right[x] := x];
    k' := k.(left := left, right := right, parent := parent);
  }

  lemma ChildFacts(k: Links, g: Shape, short: set<int>, x: int, y: int)
    requires Shaped(k, g, NIL, short) && x in g.forest.up && y == g.forest.up[x]
    ensures x in g.forest.nodes && y in g.forest.nodes && x != y && y != NIL && y in g.ring && x in g.ring[y]
    ensures Listed(k, g) && 0 <= x < |k.parent| && 0 <= y < |k.parent| == |k.child| == |k.degree| == |k.mark|
    ensures k.parent[x] == y && Family(g.forest) && Fields(k, g.forest) && Counts(k, g, NIL) && WellFormed(g.forest, short)
    ensures 0 <= x < |k.right| && k.right[x] in g.ring[y] && (k.right[x] == x <==> |g.ring[y]| == 1)
    ensures NIL !in g.ring[y] && k.degree[y] == |g.ring[y]| >= 1
    ensures k.child[y] in g.ring[y] && (|g.ring[y]| == 1 ==> k.child[y] == x)
  {
    Unlink(g.forest.nodes, g.ring, k.parent, k.left, k.right, x, y);
    assert |g.ring[y]| == 1 ==> g.ring[y][0] == x;
  }

  lemma RootFacts(k: Links, g: Shape, e: int, short: set<int>, m: int)
    requires Shaped(k, g, e, short) && m in g.forest.nodes && m !in g.forest.up
    ensures NIL in g.ring && m in g.ring[NIL] && NoDup(g.ring[NIL]) && 0 <= m < |k.parent| && k.parent[m] == NIL
  {
  }

  ghost function AfterCut(g: Shape, x: int, y: int, m: int): Shape
    requires Family(g.forest) && x in g.forest.up && g.forest.up[x] == y
    requires y in g.ring && x in g.ring[y] && NIL in g.ring && m in g.ring[NIL] && y != NIL
  {
    Shape(Moved(g, x, y, m), CutOff(g.forest, x))
  }

  lemma CutFields(k: Links, k': Links, f: Forest<int>, x: int)
    requires Fields(k, f) && Family(f) && x in f.up
    requires k'.parent == k.parent[x := NIL] && k'.mark == k.mark[x := false]
    requires |k'.degree| == |k.degree| && |k'.child| == |k.child|
    ensures Fields(k', CutOff(f, x))
  {
    hide NoDup, Without;
  }

  lemma CutCounts(k: Links, k': Links, g: Shape, x: int, y: int, m: int, c: int)
    requires Counts(k, g, NIL) && Family(g.forest)
    requires x in g.forest.up && g.forest.up[x] == y && y in g.forest.nodes && NIL !in g.forest.nodes && x != y
    requires NIL in g.ring && m in g.ring[NIL] && x in g.ring[y] && NoDup(g.ring[y])
    requires if |g.ring[y]| == 1 then c == NIL else c in g.ring[y] && c != x
    requires k'.degree == k.degree[y := k.degree[y] - 1] && k'.child == k.child[y := c]
    ensures Counts(k', AfterCut(g, x, y, m), NIL)
  {
    assert x in g.forest.age[y];
    hide NoDup, Family;
  }

  lemma CutShaped(k: Links, k1: Links, k': Links, g: Shape, x: int, y: int, m: int, short: set<int>)
    requires Shaped(k, g, NIL, short) && short <= {x}
    requires x in g.forest.up && g.forest.up[x] == y
    requires y in g.ring && x in g.ring[y] && NIL in g.ring && m in g.ring[NIL] && y != NIL
    requires 0 <= x < |k.parent| == |k.mark| && 0 <= y < |k.degree| == |k.child| == |k'.child|
    requires k1.parent == k.parent[x := NIL] && Listed(k1, g.(ring := Moved(g, x, y, m)))
    requires k' == k1.(degree := k.degree[y := k.degree[y] - 1], child := k'.child, mark := k.mark[x := false])
    requires k'.child == k.child[y := k'.child[y]]
    requires if |g.ring[y]| == 1 then k'.child[y] == NIL else k'.child[y] in g.ring[y] && k'.child[y] != x
    ensures Family(g.forest) && Shaped(k', AfterCut(g, x, y, m), NIL, {y})
  {
    assert NIL !in g.forest.nodes && NoDup(g.ring[y]) && y in g.forest.nodes && x != y;
    assert |k.mark| == |k.degree| == |k.child| == |k.parent| && Family(g.forest);
    hide Fields, Counts, Family, Ranked, Marks, Partitioned, Rings, NoDup;
    CutOffWellFormed(g.forest, x, short);
    CutFields(k, k', g.forest, x);
    CutCounts(k, k', g, x, y, m, k'.child[y]);
  }

  /** Moves `x` from the children of `y` to the root list; `y` has now lost a child. */
  method Cut(k: Links, x: int, y: int, m: int, ghost g: Shape, ghost short: set<int>) returns (k': Links)
    requires Shaped(k, g, NIL, short) && short <= {x}
    requires x in g.forest.up && g.forest.up[x] == y && m in g.forest.nodes && m !in g.forest.up
    ensures Family(g.forest) && y in g.ring && x in g.ring[y] && NIL in g.ring && m in g.ring[NIL] && y != NIL
    ensures Shaped(k', AfterCut(g, x, y, m), NIL, {y}) && |k'.parent| == |k.parent| && k' == CutOut(k, x, y, m)
  {
    hide *;
    ChildFacts(k, g, short, x, y);
    RootFacts(k, g, NIL, short, m);
    var k1 := MoveToRoots(k, x, y, m, g);
    var next, degree, child := k.right[x], k.degree, k.child;
    degree := degree[y := degree[y] - 1];
    if child[y] == x {
      child := child[y := next];
    }
    if degree[y] == 0 {
      child := child[y := NIL];
    }
    assert child == k.child[y := child[y]];
    k' := k1.(degree := degree, child := child, mark := k1.mark[x := false]);
    CutShaped(k, k1, k', g, x, y, m, short);
    assert k' == CutOut(k, x, y, m) by { CutIs(k, k1, k', x, y, m); }
  }

  lemma CutIs(k: Links, k1: Links, k': Links, x: int, y: int, m: int)
    requires k1 == ToRoots(k, x, m) && 0 <= x < |k.right| == |k.mark| && 0 <= y < |k.degree| == |k.child| && k1.mark == k.mark
    requires var child, degree := if k.child[y] == x then k.child[y := k.right[x]] else k.child, k.degree[y := k.degree[y] - 1];
             k' == k1.(degree := degree, child := if degree[y] == 0 then child[y := NIL] else child, mark := k1.mark[x := false])
    ensures k' == CutOut(k, x, y, m)
  {
    hide ToRoots;
  }

  lemma MarkShaped(k: Links, g: Shape, y: int)
    requires Shaped(k, g, NIL, {y}) && y in g.forest.nodes && 0 <= y < |k.mark| && !k.mark[y]
    ensures Shaped(k.(mark := k.mark[y := true]), g.(forest := Marked(g.forest, y)), NIL, {})
  {
    hide Fields, WellFormed, Partitioned, Rings;
    MarkField(k, g.forest, y);
    MarkedWellFormed(g.forest, y);
    MarkedFields(k, g.forest, y);
  }

  lemma MarkField(k: Links, f: Forest<int>, y: int)
    requires Fields(k, f) && y in f.nodes && 0 <= y < |k.mark| && !k.mark[y]
    ensures y !in f.marked
  {
  }

  lemma MarkedFields(k: Links, f: Forest<int>, y: int)
    requires Fields(k, f) && y in f.nodes && 0 <= y < |k.mark|
    ensures Fields(k.(mark := k.mark[y := true]), Marked(f, y))
  {
  }

  /** `f'` is `f` after some children became roots. */
  ghost predicate Pruned(f: Forest<int>, f': Forest<int>) {
    && f'.nodes == f.nodes && f'.rank == f.rank && f'.top == f.top
    && f'.up.Keys <= f.up.Keys && forall c :: c in f'.up ==> f'.up[c] == f.up[c]
  }

  lemma NodeFacts(k: Links, g: Shape, e: int, short: set<int>, y: int)
    requires Shaped(k, g, e, short) && y in g.forest.nodes
    ensures 0 <= y < |k.parent| == |k.mark| == |k.degree| == |k.child| == |k.left| == |k.right|
    ensures k.parent[y] == if y in g.forest.up then g.forest.up[y] else NIL
    ensures k.mark[y] <==> y in g.forest.marked
    ensures y in g.forest.up ==> g.forest.up[y] in g.forest.nodes && g.forest.up[y] != NIL
    ensures y in g.forest.rank && g.forest.rank[y] <= g.forest.top
    ensures y in g.forest.up ==> g.forest.up[y] in g.forest.rank && g.forest.rank[y] < g.forest.rank[g.forest.up[y]] <= g.forest.top
    ensures y in g.ring && y in g.forest.age && |g.ring[y]| == |g.forest.age[y]| && (y != e ==> k.degree[y] == |g.ring[y]|)
    ensures y != e ==> if k.degree[y] == 0 then k.child[y] == NIL else k.child[y] in g.ring[y]
    ensures NIL !in g.ring[y]
  {
  }

  /** After `y` lost a child: mark it, or cut it off as well and go on with its parent. */
  method CascadingCut(k: Links, y: int, m: int, ghost g: Shape) returns (k': Links, ghost g': Shape)
    requires Shaped(k, g, NIL, {y}) && y in g.forest.nodes && m in g.forest.nodes && m !in g.forest.up
    ensures Shaped(k', g', NIL, {}) && Pruned(g.forest, g'.forest) && |k'.parent| == |k.parent| && k' == CutUp(k, y, m)
    decreases if y in g.forest.rank then g.forest.top - g.forest.rank[y] else 0
  {
    hide Shaped, WellFormed, Family, Ranked, Marks, CutOut;
    NodeFacts(k, g, NIL, {y}, y);
    var x := k.parent[y];
    if x != NIL {
      if !k.mark[y] {
        MarkShaped(k, g, y);
        k', g' := k.(mark := k.mark[y := true]), g.(forest := Marked(g.forest, y));
      } else {
        var k1 := Cut(k, y, x, m, g, {y});
        k', g' := CascadingCut(k1, x, m, AfterCut(g, y, x, m));
      }
    } else {
      NotShort(k, g, y);
      k', g' := k, g;
    }
  }

  lemma NotShort(k: Links, g: Shape, y: int)
    requires Shaped(k, g, NIL, {y}) && y !in g.forest.up
    ensures Shaped(k, g, NIL, {})
  {
    hide Listed, Fields, Counts;
    RootNotShort(g.forest, y);
  }

  // ---------------------------------------------------------------- consolidation

  lemma LinkAlone(nodes: set<int>, ring: map<int, seq<int>>, parent: seq<int>, left: seq<int>, right: seq<int>, x: int, p: int)
    requires Partitioned(nodes, ring, parent, x) && Rings(ring, left, right) && x in nodes && |left| == |right| == |parent|
    requires p == parent[x] && p in ring && ring[p] == []
    ensures 0 <= x < |left|
    ensures Partitioned(nodes, ring[p := [x]], parent, NIL)
    ensures Rings(ring[p := [x]], left[x := x], right[x := x])
  {
    AloneRings(nodes, ring, parent, left, right, x, p);
    hide Rings, IsRing, NoDup;
    assert forall y :: y in nodes && y != x ==> parent[y] != p;
  }

  lemma AloneRings(nodes: set<int>, ring: map<int, seq<int>>, parent: seq<int>, left: seq<int>, right: seq<int>, x: int, p: int)
    requires Partitioned(nodes, ring, parent, x) && Rings(ring, left, right) && x in nodes && |left| == |right| == |parent|
    requires p in ring && ring[p] == []
    ensures 0 <= x < |left| && Rings(ring[p := [x]], left[x := x], right[x := x])
  {
    forall q | q in ring && q != p ensures IsRing(ring[q], left[x := x], right[x := x]) {
      assert IsRing(ring[q], left, right);
      RingApart(ring[q], left, right, left[x := x], right[x := x]);
    }
  }

  ghost function MovedBelow(g: Shape, y: int, x: int, c: int): map<int, seq<int>>
    requires NIL in g.ring && y in g.ring[NIL] && x in g.ring && x != NIL && (g.ring[x] != [] ==> c in g.ring[x])
  {
    g.ring[NIL := Without(g.ring[NIL], y)][x := if g.ring[x] == [] then [y] else InsertAfter(g.ring[x], c, y)]
  }

  /** Takes the root `y` out of the root list and puts it among the children of `x`. */
  method MoveBelow(k: Links, y: int, x: int, ghost g: Shape) returns (k': Links)
    requires Listed(k, g) && x in g.forest.nodes && y in g.forest.nodes && x != y && k.parent[y] == NIL && |k.child| == |k.parent|
    requires NIL in g.ring && y in g.ring[NIL] && x in g.ring && x != NIL && 0 <= x < |k.child|
    requires if g.ring[x] == [] then k.child[x] == NIL else k.child[x] in g.ring[x] && k.child[x] != NIL
    ensures 0 <= y < |k.parent|
    ensures k' == k.(left := k'.left, right := k'.right, parent := k.parent[y := x],
                     child := if k.child[x] == NIL then k.child[x := y] else k.child)
    ensures k' == Below(k, y, x)
    ensures Listed(k', g.(ring := MovedBelow(g, y, x, k.child[x])))
  {
    hide Partitioned, Rings, NoDup, IsRing, Within, Without, InsertAfter;
    var left, right, parent, child := k.left, k.right, k.parent, k.child;
    Unlink(g.forest.nodes, g.ring, parent, left, right, y, NIL);
    right := right[left[y] := right[y]];
    left := left[right[y] := left[y]];
    ghost var r := g.ring[NIL := Without(g.ring[NIL], y)];
    Reparented(g.forest.nodes, r, parent, y, x);
    parent := parent[y := x];
    if child[x] == NIL {
      LinkAlone(g.forest.nodes, r, parent, left, right, y, x);
      child := child[x := y];
      right := right[y := y];
      left := left[y := y];
    } else {
      LinkAfter(g.forest.nodes, r, parent, left, right, child[x], y, x);
      left := left[y := child[x]];
      right := right[y := right[child[x]]];
      right := right[child[x] := y];
      left := left[right[y] := y];
    }
    k' := k.(left := left, right := right, parent := parent, child := child);
  }

  ghost function AfterMakeChild(g: Shape, y: int, x: int, c: int): Shape
    requires Family(g.forest) && Ranked(g.forest) && x in g.forest.nodes && y in g.forest.nodes
    requires NIL in g.ring && y in g.ring[NIL] && x in g.ring && x != NIL && (g.ring[x] != [] ==> c in g.ring[x])
  {
    Shape(MovedBelow(g, y, x, c), Adopted(g.forest, y, x))
  }

  ghost predicate IsRoot(f: Forest<int>, x: int) {
    x in f.nodes && x !in f.up
  }

  lemma {:induction false} RootExists(f: Forest<int>, x: int) returns (r: int)
    requires Ranked(f) && x in f.nodes
    ensures IsRoot(f, r)
    decreases f.top - f.rank[x]
  {
    r := x;
    if x in f.up {
      r := RootExists(f, f.up[x]);
    }
  }

  lemma RootListed(k: Links, g: Shape, e: int, short: set<int>)
    requires Shaped(k, g, e, short)
    ensures Listed(k, g) && Family(g.forest) && Ranked(g.forest) && NIL !in g.forest.nodes && NIL in g.ring && NoDup(g.ring[NIL])
    ensures forall x :: IsRoot(g.forest, x) <==> x in g.ring[NIL]
  {
  }

  lemma MakeChildFields(k: Links, k': Links, f: Forest<int>, y: int, x: int)
    requires Fields(k, f) && Family(f) && Ranked(f) && x in f.nodes && y in f.nodes && y !in f.up
    requires k'.parent == k.parent[y := x] && k'.mark == k.mark[y := false]
    requires |k'.degree| == |k.degree| && |k'.child| == |k.child|
    ensures Fields(k', Adopted(f, y, x))
  {
    hide Family, Ranked;
  }

  lemma MakeChildCounts(k: Links, k': Links, g: Shape, y: int, x: int, c: int)
    requires Counts(k, g, NIL) && Family(g.forest) && Ranked(g.forest) && NIL !in g.forest.nodes
    requires x in g.forest.nodes && y in g.forest.nodes && x != y && NIL in g.ring && y in g.ring[NIL]
    requires x in g.ring && c == k.child[x]
    requires k'.degree == k.degree[x := k.degree[x] + 1] && k'.child == if c == NIL then k.child[x := y] else k.child
    requires NIL !in g.ring[x]
    ensures (g.ring[x] != [] ==> c in g.ring[x]) && Counts(k', AfterMakeChild(g, y, x, c), NIL)
  {
    assert g.ring[x] == [] <==> k.degree[x] == 0;
    hide Family, Ranked, NoDup;
  }

  /** Makes the root `y` a child of the root `x`, both of the same degree. */
  method MakeChild(k: Links, y: int, x: int, ghost g: Shape) returns (k': Links)
    requires Shaped(k, g, NIL, {}) && IsRoot(g.forest, x) && IsRoot(g.forest, y) && x != y
    requires x in g.forest.age && y in g.forest.age && |g.forest.age[x]| == |g.forest.age[y]|
    ensures Family(g.forest) && Ranked(g.forest) && x in g.forest.nodes && y in g.forest.nodes
    ensures NIL in g.ring && y in g.ring[NIL] && x in g.ring && x != NIL
    ensures 0 <= x < |k.child| && (g.ring[x] != [] ==> k.child[x] in g.ring[x])
    ensures Shaped(k', AfterMakeChild(g, y, x, k.child[x]), NIL, {}) && |k'.parent| == |k.parent| && k' == ChildMade(k, y, x)
  {
    hide Shaped, WellFormed, Family, Ranked, Marks, Listed, Fields, Counts, NoDup, Adopted, Below;
    NodeFacts(k, g, NIL, {}, x);
    NodeFacts(k, g, NIL, {}, y);
    RootListed(k, g, NIL, {});
    var k1 := MoveBelow(k, y, x, g);
    k' := k1.(degree := k1.degree[x := k1.degree[x] + 1], mark := k1.mark[y := false]);
    MakeChildShaped(k, k1, k', g, y, x);
  }

  lemma MakeChildShaped(k: Links, k1: Links, k': Links, g: Shape, y: int, x: int)
    requires Shaped(k, g, NIL, {}) && IsRoot(g.forest, x) && IsRoot(g.forest, y) && x != y
    requires x in g.forest.age && y in g.forest.age && |g.forest.age[x]| == |g.forest.age[y]|
    requires NIL in g.ring && y in g.ring[NIL] && x in g.ring && x != NIL
    requires 0 <= x < |k.child| == |k.degree| && 0 <= y < |k.parent| == |k.mark| && (g.ring[x] != [] ==> k.child[x] in g.ring[x])
    requires Listed(k1, g.(ring := MovedBelow(g, y, x, k.child[x])))
    requires k1.parent == k.parent[y := x] && k1.child == (if k.child[x] == NIL then k.child[x := y] else k.child)
    requires k' == k1.(degree := k.degree[x := k.degree[x] + 1], mark := k.mark[y := false])
    ensures Family(g.forest) && Ranked(g.forest) && Shaped(k', AfterMakeChild(g, y, x, k.child[x]), NIL, {})
  {
    assert NIL !in g.forest.nodes && NIL !in g.ring[x] && |k.child| == |k.parent|;
    hide Fields, Counts, Family, Ranked, Marks, Partitioned, Rings, NoDup;
    AdoptedWellFormed(g.forest, y, x);
    MakeChildFields(k, k', g.forest, y, x);
    MakeChildCounts(k, k', g, y, x, k.child[x]);
  }

  // ------------------------------------------------------------- order of the keys

  /** No child has a smaller table entry, that is a larger key, than its parent; `e` may. */
  ghost predicate HeapOrdered(f: Forest<int>, keys: seq<int>, e: int) {
    && (forall x :: x in f.nodes ==> 0 <= x < |keys|)
    && forall c :: c in f.up && c != e && c in f.nodes && f.up[c] in f.nodes ==> keys[f.up[c]] <= keys[c]
  }

  lemma {:induction false} RootDominates(f: Forest<int>, keys: seq<int>, m: int, x: int)
    requires Ranked(f) && HeapOrdered(f, keys, NIL) && NIL !in f.nodes && x in f.nodes && m in f.nodes
    requires forall r :: r in f.nodes && r !in f.up ==> keys[m] <= keys[r]
    ensures keys[m] <= keys[x]
    decreases f.top - f.rank[x]
  {
    if x in f.up {
      RootDominates(f, keys, m, f.up[x]);
    }
  }

  // ---------------------------------------------------------------- consolidation

  lemma RotatedFirst(s: seq<int>, k: nat)
    requires k <= |s|
    ensures Rotated(s, k) == s[k..] + s[..k]
  {
  }

  /** `g` with its root list written from `m` on. */
  lemma RotateRoots(k: Links, g: Shape, m: int) returns (g': Shape)
    requires Shaped(k, g, NIL, {}) && IsRoot(g.forest, m)
    ensures Shaped(k, g', NIL, {}) && g'.forest == g.forest
    ensures NIL in g'.ring && |g'.ring[NIL]| > 0 && g'.ring[NIL][0] == m
  {
    hide WellFormed, Family, Ranked, Marks, NoDup, IsRing, Rotated;
    RootListed(k, g, NIL, {});
    var s := g.ring[NIL];
    var i := IndexOf(s, m);
    assert Rotated(s, i) == s[i..] + s[..i] && |s| > 0 by { RotatedFirst(s, i); }
    RotatedNoDup(s, i);
    RotatedRing(s, k.left, k.right, i);
    g' := g.(ring := g.ring[NIL := Rotated(s, i)]);
    assert forall q, c {:trigger c in g'.ring[q]} :: q in g'.ring ==> (c in g'.ring[q] <==> c in g.ring[q]);
  }

  /** The right links of the roots walk along the root list. */
  lemma RootStep(k: Links, g: Shape, i: nat)
    requires Shaped(k, g, NIL, {}) && NIL in g.ring && i < |g.ring[NIL]|
    ensures 0 <= g.ring[NIL][i] < |k.right| && NoDup(g.ring[NIL]) && IsRoot(g.forest, g.ring[NIL][i])
    ensures k.right[g.ring[NIL][i]] == g.ring[NIL][if i + 1 == |g.ring[NIL]| then 0 else i + 1]
  {
    var s := g.ring[NIL];
    RootListed(k, g, NIL, {});
    assert IsRing(s, k.left, k.right) && s[i] in s;
    assert i + 1 < |s| ==> k.right[s[i]] == s[i + 1];
  }

  method CountRoots(k: Links, m: int, ghost g: Shape) returns (numRoots: int)
    requires Shaped(k, g, NIL, {}) && NIL in g.ring && |g.ring[NIL]| > 0 && g.ring[NIL][0] == m
    ensures numRoots == |g.ring[NIL]| == Round(k.right, m)
  {
    hide *;
    ghost var s := g.ring[NIL];
    RootStep(k, g, 0);
    WalkedOn(k.right, m, 0);
    numRoots := 1;
    var x := k.right[m];
    while x != m
      invariant 1 <= numRoots <= |s| && x == s[if numRoots == |s| then 0 else numRoots]
      invariant x == Walked(k.right, m, numRoots) && forall i :: 0 < i < numRoots ==> Walked(k.right, m, i) != m
      decreases |s| - numRoots
    {
      RootStep(k, g, numRoots);
      WalkedOn(k.right, m, numRoots);
      numRoots := numRoots + 1;
      x := k.right[x];
    }
    SameElement(s, if numRoots == |s| then 0 else numRoots);
    assert Round(k.right, m) == numRoots by { Rounded(k.right, m, numRoots); }
  }

  lemma WalkedOn(right: seq<int>, m: int, n: nat)
    requires var x := if n == 0 then m else Walked(right, m, n); 0 <= x < |right|
    ensures Walked(right, m, n + 1) == right[if n == 0 then m else Walked(right, m, n)]
  {
  }

  lemma Rounded(right: seq<int>, m: int, n: nat)
    requires n >= 1 && Walked(right, m, n) == m && forall i :: 0 < i < n ==> Walked(right, m, i) != m
    ensures Round(right, m) == n
  {
    RoundIs(right, m, n);
  }

  lemma SameElement(s: seq<int>, i: nat)
    requires i < |s| && s[i] == s[0] && NoDup(s)
    ensures i == 0
  {
  }

  /** The degree table holds exactly the nodes of `a`, each in the slot of its degree, but for `x`. */
  ghost predicate Tabled(table: seq<int>, a: seq<int>, f: Forest<int>, x: int) {
    && |table| == DEGREE_TABLE_SIZE
    && (forall r :: r in a ==> r != NIL && r in f.age)
    && (forall r :: r in a && r != x ==> |f.age[r]| < DEGREE_TABLE_SIZE && table[|f.age[r]|] == r)
    && (forall i :: 0 <= i < |table| && table[i] != NIL ==> table[i] in a && table[i] != x && |f.age[table[i]]| == i)
  }

  /** One step of the inner loop: the current root and the one of its degree become one tree. */
  lemma TabledStep(table: seq<int>, a: seq<int>, f: Forest<int>, f': Forest<int>, x: int, x': int, y': int, d: nat)
    requires Tabled(table, a, f, x) && NoDup(a) && x in a && d < DEGREE_TABLE_SIZE && table[d] != NIL
    requires {x', y'} == {x, table[d]} && x' != y' && |f.age[x]| == d
    requires f'.age.Keys == f.age.Keys && (forall r :: r in a && r != x' ==> f'.age[r] == f.age[r])
    ensures y' in a && x' in a && x' in f.age && |f.age[x']| == d
    ensures Tabled(table[d := NIL], Without(a, y'), f', x')
  {
  }

  lemma TabledEnter(table: seq<int>, a: seq<int>, f: Forest<int>, x: int)
    requires Tabled(table, a, f, NIL) && x !in a && x in f.age && x != NIL
    ensures Tabled(table, a + [x], f, x)
  {
  }

  lemma TabledLeave(table: seq<int>, a: seq<int>, f: Forest<int>, x: int, d: nat)
    requires Tabled(table, a, f, x) && NoDup(a) && x in a && |f.age[x]| == d < DEGREE_TABLE_SIZE && table[d] == NIL
    ensures Tabled(table[d := x], a, f, NIL)
  {
  }

  /** The invariant of the merging loop: `a` are the roots already visited, `u` those still to come. */
  ghost predicate Merging(k: Links, g: Shape, n: set<int>, keys: seq<int>, table: seq<int>, a: seq<int>, u: seq<int>, x: int) {
    && Shaped(k, g, NIL, {}) && g.forest.nodes == n && |n| <= INT_MAX
    && HeapOrdered(g.forest, keys, NIL)
    && NIL in g.ring && g.ring[NIL] == a + u
    && Tabled(table, a, g.forest, x)
  }

  lemma MergingStart(k: Links, g: Shape, keys: seq<int>)
    requires Shaped(k, g, NIL, {}) && |g.forest.nodes| <= INT_MAX && HeapOrdered(g.forest, keys, NIL) && NIL in g.ring
    ensures Merging(k, g, g.forest.nodes, keys, seq(DEGREE_TABLE_SIZE, _ => NIL), [], g.ring[NIL], NIL)
  {
    hide Shaped, HeapOrdered;
  }

  lemma FirstNew(a: seq<int>, u: seq<int>)
    requires NoDup(a + u) && |u| > 0
    ensures u[0] !in a
  {
    forall i | 0 <= i < |a| ensures a[i] != u[0] {
      assert (a + u)[i] == a[i] && (a + u)[|a|] == u[0];
    }
  }

  lemma MergingEnter(k: Links, g: Shape, n: set<int>, keys: seq<int>, table: seq<int>, a: seq<int>, u: seq<int>)
    requires Merging(k, g, n, keys, table, a, u, NIL) && |u| > 0
    ensures Merging(k, g, n, keys, table, a + [u[0]], u[1..], u[0])
    ensures 0 <= u[0] < |k.right| == |k.degree| && (|u| > 1 ==> k.right[u[0]] == u[1]) && u[0] in a + [u[0]]
  {
    hide Shaped, HeapOrdered, Tabled;
    RootStep(k, g, |a|);
    assert g.ring[NIL][|a|] == u[0] && (|u| > 1 ==> g.ring[NIL][|a| + 1] == u[1]);
    NodeFacts(k, g, NIL, {}, u[0]);
    assert a + u == a + [u[0]] + u[1..];
    FirstNew(a, u);
    TabledEnter(table, a, g.forest, u[0]);
  }

  lemma MergingFacts(k: Links, g: Shape, n: set<int>, keys: seq<int>, table: seq<int>, a: seq<int>, u: seq<int>, x: int)
    requires Merging(k, g, n, keys, table, a, u, x) && x in a
    ensures |table| == DEGREE_TABLE_SIZE && NoDup(a) && IsRoot(g.forest, x) && x in g.forest.age && 0 <= x < |keys|
    ensures 0 <= x < |k.degree| && k.degree[x] == |g.forest.age[x]| < DEGREE_TABLE_SIZE
    ensures table[k.degree[x]] != NIL ==>
        var y := table[k.degree[x]]; y in a && y != x && IsRoot(g.forest, y) && y in g.forest.age && 0 <= y < |keys| && |g.forest.age[y]| == k.degree[x]
  {
    hide Shaped, WellFormed;
    RootListed(k, g, NIL, {});
    assert x in a + u;
    assert forall i :: 0 <= i < |a| ==> a[i] == (a + u)[i];
    NodeFacts(k, g, NIL, {}, x);
    MergingDegree(k, g, x);
    var y := table[k.degree[x]];
    assert y != NIL ==> y in a + u;
  }

  lemma MergingDegree(k: Links, g: Shape, x: int)
    requires Shaped(k, g, NIL, {}) && x in g.forest.nodes && |g.forest.nodes| <= INT_MAX
    ensures x in g.forest.age && |g.forest.age[x]| < DEGREE_TABLE_SIZE
  {
    DegreeBound(g.forest, x);
  }

  lemma MergingStep(k: Links, k': Links, g: Shape, n: set<int>, keys: seq<int>, table: seq<int>, a: seq<int>, u: seq<int>,
                    x: int, x': int, y': int, d: nat)
    requires Merging(k, g, n, keys, table, a, u, x) && x in a && x in g.forest.age && d == |g.forest.age[x]| < DEGREE_TABLE_SIZE
    requires table[d] != NIL && NoDup(a) && {x', y'} == {x, table[d]} && x' != y' && IsRoot(g.forest, x') && IsRoot(g.forest, y')
    requires 0 <= x' < |keys| && 0 <= y' < |keys| && keys[x'] <= keys[y']
    requires Family(g.forest) && Ranked(g.forest) && NIL in g.ring && y' in g.ring[NIL] && x' in g.ring && x' != NIL
    requires 0 <= x' < |k.child| && (g.ring[x'] != [] ==> k.child[x'] in g.ring[x'])
    requires Shaped(k', AfterMakeChild(g, y', x', k.child[x']), NIL, {})
    ensures y' in a && x' in Without(a, y')
    ensures Merging(k', AfterMakeChild(g, y', x', k.child[x']), n, keys, table[d := NIL], Without(a, y'), u, x')
    ensures |AfterMakeChild(g, y', x', k.child[x']).forest.age[x']| == d + 1
  {
    hide Shaped, Family, Ranked, NoDup, Without, InsertAfter, Tabled, HeapOrdered, WellFormed;
    var g' := AfterMakeChild(g, y', x', k.child[x']);
    RootListed(k, g, NIL, {});
    AdoptedOrdered(g.forest, keys, y', x');
    TabledStep(table, a, g.forest, g'.forest, x, x', y', d);
    WithoutPrefix(a, u, y');
  }

  lemma AdoptedOrdered(f: Forest<int>, keys: seq<int>, y: int, x: int)
    requires Family(f) && Ranked(f) && HeapOrdered(f, keys, NIL) && x in f.nodes && y in f.nodes && x != y
    requires 0 <= x < |keys| && 0 <= y < |keys| && keys[x] <= keys[y]
    ensures HeapOrdered(Adopted(f, y, x), keys, NIL)
  {
  }

  /**
   * Joins roots of equal degree until all degrees differ, then finds the root of the largest key.
   * The index into the degree table stays below 45 throughout.
   */
  method MergeRoots(k: Links, m: int, keys: array<int>, ghost g: Shape) returns (k': Links, ghost g': Shape, degreeTable: seq<int>)
    requires Shaped(k, g, NIL, {}) && IsRoot(g.forest, m) && |g.forest.nodes| <= INT_MAX && HeapOrdered(g.forest, keys[..], NIL)
    ensures Roots(k', degreeTable) == MergedRoots(k, m, keys[..])
    ensures NIL in g'.ring && Merging(k', g', g.forest.nodes, keys[..], degreeTable, g'.ring[NIL], [], NIL)
    ensures |k'.parent| == |k.parent|
  {
    hide *;
    ghost var n, u := g.forest.nodes, [];
    g' := RotateRoots(k, g, m);
    k' := k;
    var numRoots := CountRoots(k', m, g');
    degreeTable := seq(DEGREE_TABLE_SIZE, _ => NIL);
    MergingStart(k', g', keys[..]);
    MergedFrom(k, m, keys[..]);
    ghost var a: seq<int>;
    a, u := [], g'.ring[NIL];
    var x := m;
    while numRoots > 0
      invariant Merging(k', g', n, keys[..], degreeTable, a, u, NIL)
      invariant |u| == numRoots && (numRoots > 0 ==> x == u[0]) && |k'.parent| == |k.parent|
      invariant JoinedAll(k', keys[..], degreeTable, x, numRoots) == MergedRoots(k, m, keys[..])
    {
      MergingEnter(k', g', n, keys[..], degreeTable, a, u);
      a, u := a + [u[0]], u[1..];
      var d := k'.degree[x];
      var next := k'.right[x];
      MergingFacts(k', g', n, keys[..], degreeTable, a, u, x);
      ghost var slot := Joined(k', keys[..], degreeTable, x, d);
      JoinedNext(k', keys[..], degreeTable, x, numRoots);
      while degreeTable[d] != NIL
        invariant Joined(k', keys[..], degreeTable, x, d) == slot
        invariant Merging(k', g', n, keys[..], degreeTable, a, u, x) && x in a && |k'.parent| == |k.parent|
        invariant 0 <= x < |k'.degree| && d == k'.degree[x] && 0 <= d < |degreeTable| == DEGREE_TABLE_SIZE
        decreases |a|
      {
        MergingFacts(k', g', n, keys[..], degreeTable, a, u, x);
        ghost var x0 := x;
        JoinedStep(k', keys[..], degreeTable, x, d);
        var y := degreeTable[d];
        if -keys[x] < -keys[y] {
          x, y := y, x;
        }
        MergingShaped(k', g', n, keys[..], degreeTable, a, u, x0);
        var k1 := MakeChild(k', y, x, g');
        MergingStep(k', k1, g', n, keys[..], degreeTable, a, u, x0, x, y, d);
        g' := AfterMakeChild(g', y, x, k'.child[x]);
        k' := k1;
        degreeTable := degreeTable[d := NIL];
        d := d + 1;
        a := Without(a, y);
        MergingFacts(k', g', n, keys[..], degreeTable, a, u, x);
      }
      MergingLeave(k', g', n, keys[..], degreeTable, a, u, x, d);
      JoinedEnd(k', keys[..], degreeTable, x, d);
      degreeTable := degreeTable[d := x];
      x := next;
      numRoots := numRoots - 1;
    }
    MergingEnd(k', g', n, keys[..], degreeTable, a, u);
    JoinedNone(k', keys[..], degreeTable, x);
  }

  lemma MergedFrom(k: Links, m: int, keys: seq<int>)
    ensures JoinedAll(k, keys, seq(DEGREE_TABLE_SIZE, _ => NIL), m, Round(k.right, m)) == MergedRoots(k, m, keys)
  {
    assert seq(DEGREE_TABLE_SIZE, _ => NIL) == NoRoots();
  }

  lemma JoinedNone(k: Links, keys: seq<int>, table: seq<int>, x: int)
    ensures JoinedAll(k, keys, table, x, 0) == Roots(k, table)
  {
  }

  lemma JoinedNext(k: Links, keys: seq<int>, table: seq<int>, x: int, n: int)
    requires n > 0 && 0 <= x < |k.degree| && x < |k.right|
    ensures var r := Joined(k, keys, table, x, k.degree[x]);
            0 <= r.d < |r.table| ==> JoinedAll(r.links, keys, r.table[r.d := r.x], k.right[x], n - 1) == JoinedAll(k, keys, table, x, n)
  {
  }

  lemma JoinedStep(k: Links, keys: seq<int>, table: seq<int>, x: int, d: int)
    requires 0 <= d < |table| && table[d] != NIL && 0 <= x < |keys| && 0 <= table[d] < |keys|
    ensures Joined(k, keys, table, x, d) ==
            if keys[x] > keys[table[d]] then Joined(ChildMade(k, x, table[d]), keys, table[d := NIL], table[d], d + 1)
            else Joined(ChildMade(k, table[d], x), keys, table[d := NIL], x, d + 1)
  {
  }

  lemma JoinedEnd(k: Links, keys: seq<int>, table: seq<int>, x: int, d: int)
    requires 0 <= d < |table| && table[d] == NIL
    ensures Joined(k, keys, table, x, d) == Slot(k, table, x, d)
  {
  }

  lemma MergingShaped(k: Links, g: Shape, n: set<int>, keys: seq<int>, table: seq<int>, a: seq<int>, u: seq<int>, x: int)
    requires Merging(k, g, n, keys, table, a, u, x)
    ensures Shaped(k, g, NIL, {})
  {
  }

  lemma MergingLeave(k: Links, g: Shape, n: set<int>, keys: seq<int>, table: seq<int>, a: seq<int>, u: seq<int>, x: int, d: int)
    requires Merging(k, g, n, keys, table, a, u, x) && x in a && 0 <= x < |k.degree| && d == k.degree[x]
    requires 0 <= d < |table| && table[d] == NIL
    ensures Merging(k, g, n, keys, table[d := x], a, u, NIL)
  {
    MergingFacts(k, g, n, keys, table, a, u, x);
    hide Shaped, HeapOrdered, Tabled;
    TabledLeave(table, a, g.forest, x, d);
  }

  lemma MergingEnd(k: Links, g: Shape, n: set<int>, keys: seq<int>, table: seq<int>, a: seq<int>, u: seq<int>)
    requires Merging(k, g, n, keys, table, a, u, NIL) && |u| == 0
    ensures NIL in g.ring && Merging(k, g, n, keys, table, g.ring[NIL], [], NIL)
  {
    hide Shaped, HeapOrdered, Tabled;
    assert a + u == a == a + [];
  }

  /** Takes the root `y` out of the root list and puts it back to the right of the root `m`. */
  method Relink(k: Links, y: int, m: int, ghost g: Shape) returns (k': Links, ghost g': Shape)
    requires Shaped(k, g, NIL, {}) && IsRoot(g.forest, y) && IsRoot(g.forest, m) && y != m
    ensures g'.forest == g.forest && Shaped(k', g', NIL, {}) && |k'.parent| == |k.parent| && k' == After(Out(k, y), m, y)
  {
    hide Shaped, Listed, Fields, Counts, WellFormed, Family, Ranked, Partitioned, Rings, NoDup, IsRing, Within, Without, InsertAfter;
    RootListed(k, g, NIL, {});
    NodeFacts(k, g, NIL, {}, y);
    ListedFacts(k, g);
    var left, right := k.left, k.right;
    Unlink(g.forest.nodes, g.ring, k.parent, left, right, y, NIL);
    right := right[left[y] := right[y]];
    left := left[right[y] := left[y]];
    ghost var r := g.ring[NIL := Without(g.ring[NIL], y)];
    LinkAfter(g.forest.nodes, r, k.parent, left, right, m, y, NIL);
    left := left[y := m];
    right := right[y := right[m]];
    right := right[m := y];
    left := left[right[y] := y];
    k' := k.(left := left, right := right);
    g' := g.(ring := r[NIL := InsertAfter(r[NIL], m, y)]);
    RelinkShaped(k, k', g, g');
  }

  lemma ListedFacts(k: Links, g: Shape)
    requires Listed(k, g)
    ensures |k.left| == |k.right| == |k.parent| && Partitioned(g.forest.nodes, g.ring, k.parent, NIL) && Rings(g.ring, k.left, k.right)
  {
  }

  lemma RelinkShaped(k: Links, k': Links, g: Shape, g': Shape)
    requires Shaped(k, g, NIL, {}) && k' == k.(left := k'.left, right := k'.right) && g' == g.(ring := g'.ring)
    requires |k'.left| == |k'.right| == |k'.parent|
    requires Partitioned(g'.forest.nodes, g'.ring, k'.parent, NIL) && Rings(g'.ring, k'.left, k'.right)
    requires NIL in g.ring && g'.ring == g.ring[NIL := g'.ring[NIL]]
    ensures Shaped(k', g', NIL, {})
  {
    assert NIL !in g.forest.nodes;
    hide Partitioned, Rings, WellFormed;
  }

  lemma MergedTable(k: Links, g: Shape, n: set<int>, keys: seq<int>, table: seq<int>)
    requires NIL in g.ring && Merging(k, g, n, keys, table, g.ring[NIL], [], NIL)
    ensures Shaped(k, g, NIL, {}) && HeapOrdered(g.forest, keys, NIL) && g.forest.nodes == n && |table| == DEGREE_TABLE_SIZE
    ensures forall j :: 0 <= j < |table| && table[j] != NIL ==> IsRoot(g.forest, table[j]) && 0 <= table[j] < |keys|
    ensures forall i, j :: 0 <= i < j < |table| && table[i] != NIL ==> table[i] != table[j]
    ensures forall r :: IsRoot(g.forest, r) ==> r in table && r != NIL
  {
    RootListed(k, g, NIL, {});
    hide Shaped, Family, Ranked, NoDup;
    forall i, j | 0 <= i < j < |table| && table[i] != NIL ensures table[i] != table[j] {
      assert |g.forest.age[table[i]]| == i;
    }
  }

  lemma RootMember(f: Forest<int>, x: int)
    requires IsRoot(f, x)
    ensures x in f.nodes && x !in f.up
  {
  }

  lemma Dominates(k: Links, g: Shape, keys: seq<int>, m: int)
    requires Shaped(k, g, NIL, {}) && HeapOrdered(g.forest, keys, NIL) && IsRoot(g.forest, m)
    requires forall r :: IsRoot(g.forest, r) ==> 0 <= m < |keys| && 0 <= r < |keys| && keys[m] <= keys[r]
    ensures forall x :: x in g.forest.nodes ==> 0 <= x < |keys| && keys[m] <= keys[x]
  {
    RootListed(k, g, NIL, {});
    forall x | x in g.forest.nodes ensures keys[m] <= keys[x] {
      assert forall r :: r in g.forest.nodes && r !in g.forest.up ==> IsRoot(g.forest, r);
      RootDominates(g.forest, keys, m, x);
    }
  }

  /** Consolidates the trees and finds the node of the largest key. */
  method DegreewiseMerge(k: Links, m: int, keys: array<int>, ghost g: Shape) returns (k': Links, m': int, ghost g': Shape)
    requires Shaped(k, g, NIL, {}) && IsRoot(g.forest, m) && |g.forest.nodes| <= INT_MAX && HeapOrdered(g.forest, keys[..], NIL)
    ensures Shaped(k', g', NIL, {}) && HeapOrdered(g'.forest, keys[..], NIL) && g'.forest.nodes == g.forest.nodes
    ensures IsRoot(g'.forest, m') && 0 <= m' < keys.Length && |k'.parent| == |k.parent|
    ensures Heap(k', m') == Consolidated(k, m, keys[..])
    ensures forall x :: x in g'.forest.nodes ==> 0 <= x < keys.Length && keys[m'] <= keys[x]
  {
    hide *;
    var degreeTable;
    k', g', degreeTable := MergeRoots(k, m, keys, g);
    MergedTable(k', g', g.forest.nodes, keys[..], degreeTable);
    CollectedFrom(k, m, keys[..]);
    ghost var f, table := g'.forest, degreeTable;
    RootListed(k', g', NIL, {});
    RootMember(g.forest, m);
    ghost var root := RootExists(f, m);
    m' := NIL;
    var i := 0;
    while i < DEGREE_TABLE_SIZE
      invariant 0 <= i <= DEGREE_TABLE_SIZE && Collected(k', keys[..], table, i, m') == Consolidated(k, m, keys[..])
      invariant Shaped(k', g', NIL, {}) && g'.forest == f && |k'.parent| == |k.parent|
      invariant forall r :: IsRoot(f, r) ==> r in table && r != NIL
      invariant forall j :: 0 <= j < |table| && table[j] != NIL ==> IsRoot(f, table[j])
      invariant m' != NIL ==> IsRoot(f, m') && m' in table[..i]
      invariant forall j :: 0 <= j < i && table[j] != NIL ==> m' != NIL && 0 <= m' < keys.Length && keys[m'] <= keys[table[j]]
    {
      var y := degreeTable[i];
      CollectedStep(k', keys[..], table, i, m');
      if y != NIL {
        if m' != NIL {
          k', g' := Relink(k', y, m', g');
          if -keys[y] > -keys[m'] {
            m' := y;
          }
        } else {
          m' := y;
        }
      }
      i := i + 1;
    }
    Dominates(k', g', keys[..], m');
    CollectedAll(k', keys[..], table, m');
  }

  lemma CollectedFrom(k: Links, m: int, keys: seq<int>)
    ensures var r := MergedRoots(k, m, keys); Collected(r.links, keys, r.table, 0, NIL) == Consolidated(k, m, keys)
  {
  }

  lemma CollectedStep(k: Links, keys: seq<int>, table: seq<int>, i: int, m: int)
    requires 0 <= i < |table| && (table[i] != NIL ==> 0 <= table[i] < |keys|) && (m != NIL ==> 0 <= m < |keys|)
    ensures var y := table[i];
            Collected(k, keys, table, i, m) ==
            if y == NIL then Collected(k, keys, table, i + 1, m)
            else if m == NIL then Collected(k, keys, table, i + 1, y)
            else Collected(After(Out(k, y), m, y), keys, table, i + 1, if keys[y] < keys[m] then y else m)
  {
  }

  lemma CollectedAll(k: Links, keys: seq<int>, table: seq<int>, m: int)
    requires |table| == DEGREE_TABLE_SIZE
    ensures Collected(k, keys, table, DEGREE_TABLE_SIZE, m) == Heap(k, m)
  {
  }

  // ---------------------------------------------------------- insertion and removal

  ghost function AfterInsert(g: Shape, o: int, m: int): Shape
    requires NIL in g.ring && (m != NIL ==> m in g.ring[NIL])
  {
    Shape(g.ring[o := []][NIL := if m == NIL then [o] else InsertAfter(g.ring[NIL], m, o)], Planted(g.forest, o))
  }

  /** Puts a new node for the object `o` to the right of `m`, or into the empty heap. */
  method InsertNode(k: Links, o: int, m: int, ghost g: Shape) returns (k': Links)
    requires Shaped(k, g, NIL, {}) && o !in g.forest.nodes && 0 <= o < |k.parent|
    requires if m == NIL then g.forest.nodes == {} else IsRoot(g.forest, m)
    ensures NIL in g.ring && (m != NIL ==> m in g.ring[NIL])
    ensures Shaped(k', AfterInsert(g, o, m), NIL, {}) && |k'.parent| == |k.parent| && k' == Entered(k, o, m)
  {
    hide Shaped, WellFormed, Family, Ranked, Marks, Listed, Fields, Counts, Partitioned, Rings, NoDup, IsRing, Within, InsertAfter;
    ghost var r := NewNode(k, g, o, m);
    var k0 := k.(left := k.left[o := o], right := k.right[o := o], parent := k.parent[o := NIL],
                 child := k.child[o := NIL], degree := k.degree[o := 0], mark := k.mark[o := false]);
    var left, right := k0.left, k0.right;
    if m != NIL {
      LinkAfter(g.forest.nodes + {o}, r, k0.parent, left, right, m, o, NIL);
      left := left[o := m];
      right := right[o := right[m]];
      right := right[m := o];
      left := left[right[o] := o];
    } else {
      LinkAlone(g.forest.nodes + {o}, r, k0.parent, left, right, o, NIL);
      assert left[o := o] == left && right[o := o] == right;
    }
    k' := k0.(left := left, right := right);
    InsertShaped(k, k', g, o, m);
  }

  lemma NewNode(k: Links, g: Shape, o: int, m: int) returns (r: map<int, seq<int>>)
    requires Shaped(k, g, NIL, {}) && o !in g.forest.nodes && 0 <= o < |k.parent|
    requires if m == NIL then g.forest.nodes == {} else IsRoot(g.forest, m)
    ensures |k.left| == |k.right| == |k.parent| == |k.child| == |k.degree| == |k.mark| && r == g.ring[o := []]
    ensures NIL in g.ring && NIL in r && NIL != o && if m == NIL then r[NIL] == [] else m in g.ring[NIL] && m in r[NIL]
    ensures Partitioned(g.forest.nodes + {o}, r, k.parent[o := NIL], o)
    ensures Rings(r, k.left[o := o], k.right[o := o])
  {
    hide WellFormed, Family, Ranked, Marks, Counts, Partitioned, Rings, NoDup;
    RootListed(k, g, NIL, {});
    r := g.ring[o := []];
    assert m == NIL ==> g.ring[NIL] == [] by {
      if g.ring[NIL] != [] {
        assert g.ring[NIL][0] in g.ring[NIL];
        assert IsRoot(g.forest, g.ring[NIL][0]);
      }
    }
    NewPartition(g.forest.nodes, g.ring, k.parent, o);
    NewRings(g.forest.nodes, g.ring, k.parent, k.left, k.right, o);
  }

  lemma NewPartition(nodes: set<int>, ring: map<int, seq<int>>, parent: seq<int>, o: int)
    requires Partitioned(nodes, ring, parent, NIL) && o !in nodes && 0 <= o < |parent|
    ensures Partitioned(nodes + {o}, ring[o := []], parent[o := NIL], o)
  {
  }

  lemma NewRings(nodes: set<int>, ring: map<int, seq<int>>, parent: seq<int>, left: seq<int>, right: seq<int>, o: int)
    requires Partitioned(nodes, ring, parent, NIL) && Rings(ring, left, right) && o !in nodes && 0 <= o < |parent| == |left| == |right|
    ensures Rings(ring[o := []], left[o := o], right[o := o])
  {
    hide NoDup, IsRing;
    forall q | q in ring && q != o ensures IsRing(ring[q], left[o := o], right[o := o]) {
      RingApart(ring[q], left, right, left[o := o], right[o := o]);
    }
    EmptyRing(left[o := o], right[o := o]);
  }

  lemma EmptyRing(left: seq<int>, right: seq<int>)
    requires |left| == |right|
    ensures IsRing([], left, right)
  {
  }

  lemma InsertShaped(k: Links, k': Links, g: Shape, o: int, m: int)
    requires Shaped(k, g, NIL, {}) && o !in g.forest.nodes && 0 <= o < |k.parent| == |k.child| == |k.degree| == |k.mark|
    requires NIL in g.ring && (m != NIL ==> m in g.ring[NIL]) && NIL != o
    requires k' == k'.(parent := k.parent[o := NIL], child := k.child[o := NIL], degree := k.degree[o := 0], mark := k.mark[o := false])
    requires |k'.left| == |k'.right| == |k'.parent|
    requires Partitioned(g.forest.nodes + {o}, AfterInsert(g, o, m).ring, k'.parent, NIL)
    requires Rings(AfterInsert(g, o, m).ring, k'.left, k'.right)
    ensures Shaped(k', AfterInsert(g, o, m), NIL, {})
  {
    hide Partitioned, Rings, NoDup, Family, Ranked, Marks;
    PlantedWellFormed(g.forest, o);
    InsertFields(k, k', g.forest, o);
    InsertCounts(k, k', g, o, m);
  }

  lemma InsertFields(k: Links, k': Links, f: Forest<int>, o: int)
    requires Fields(k, f) && WellFormed(f, {}) && o !in f.nodes && 0 <= o < |k.parent|
    requires k'.parent == k.parent[o := NIL] && k'.mark == k.mark[o := false]
    requires |k'.degree| == |k'.child| == |k.parent|
    ensures Fields(k', Planted(f, o))
  {
    hide Ranked, Marks, NoDup;
  }

  lemma InsertCounts(k: Links, k': Links, g: Shape, o: int, m: int)
    requires Counts(k, g, NIL) && NIL !in g.forest.nodes && NIL in g.ring && (m != NIL ==> m in g.ring[NIL]) && NIL != o
    requires o !in g.forest.nodes && 0 <= o < |k.child| == |k.degree|
    requires k'.child == k.child[o := NIL] && k'.degree == k.degree[o := 0]
    ensures Counts(k', AfterInsert(g, o, m), NIL)
  {
  }

  ghost function AfterUproot(g: Shape, x: int, z: int): Shape
    requires Family(g.forest) && x in g.forest.up && z in g.ring && x in g.ring[z] && NIL in g.ring && z in g.ring[NIL] && z != NIL
  {
    Shape(Moved(g, x, z, z), Uprooted(g.forest, x))
  }

  lemma UprootFacts(k: Links, g: Shape, x: int, z: int)
    requires Shaped(k, g, z, {}) && IsRoot(g.forest, z) && z in g.ring && x in g.ring[z]
    ensures Listed(k, g) && x in g.forest.nodes && 0 <= x < |k.parent| && k.parent[x] == z && z != NIL
    ensures NIL in g.ring && z in g.ring[NIL] && Family(g.forest) && x in g.forest.up && g.forest.up[x] == z
    ensures 0 <= x < |k.right| && k.right[x] in g.ring[z] && (k.right[x] == x <==> |g.ring[z]| == 1) && NoDup(g.ring[z])
  {
    RootListed(k, g, z, {});
    Unlink(g.forest.nodes, g.ring, k.parent, k.left, k.right, x, z);
  }

  lemma UprootShaped(k: Links, k': Links, g: Shape, x: int, z: int)
    requires Shaped(k, g, z, {}) && IsRoot(g.forest, z) && Family(g.forest) && x in g.forest.up && g.forest.up[x] == z
    requires z in g.ring && x in g.ring[z] && NIL in g.ring && z in g.ring[NIL] && z != NIL && 0 <= x < |k.parent|
    requires k' == k.(left := k'.left, right := k'.right, parent := k.parent[x := NIL])
    requires Listed(k', g.(ring := Moved(g, x, z, z)))
    ensures Shaped(k', AfterUproot(g, x, z), z, {})
    ensures Pruned(g.forest, Uprooted(g.forest, x)) && IsRoot(Uprooted(g.forest, x), z)
  {
    assert NIL !in g.forest.nodes && x in g.forest.age[z] && x != z;
    assert {} + {z} == {z};
    hide Partitioned, Rings, NoDup, Family, Ranked, Marks, Fields, Counts;
    UprootedFamily(g.forest, x);
    UprootedMarks(g.forest, x, {});
    UprootFields(k, k', g.forest, x);
    UprootCounts(k, k', g, x, z);
  }

  lemma UprootFields(k: Links, k': Links, f: Forest<int>, x: int)
    requires Fields(k, f) && Family(f) && x in f.up && 0 <= x < |k.parent|
    requires k'.parent == k.parent[x := NIL] && k'.mark == k.mark && k'.degree == k.degree && k'.child == k.child
    ensures Fields(k', Uprooted(f, x))
  {
    hide NoDup, Without;
  }

  lemma UprootCounts(k: Links, k': Links, g: Shape, x: int, z: int)
    requires Counts(k, g, z) && Family(g.forest) && NIL !in g.forest.nodes && x in g.forest.up && g.forest.up[x] == z
    requires z in g.ring && x in g.ring[z] && NIL in g.ring && z in g.ring[NIL] && z != NIL
    requires k'.degree == k.degree && k'.child == k.child
    ensures Counts(k', AfterUproot(g, x, z), z)
  {
    hide NoDup;
  }

  lemma PrunedOrdered(f: Forest<int>, f': Forest<int>, keys: seq<int>, e: int)
    requires Pruned(f, f') && HeapOrdered(f, keys, e)
    ensures HeapOrdered(f', keys, e) && (e !in f'.up ==> HeapOrdered(f', keys, NIL))
  {
  }

  lemma PrunedTransitive(f: Forest<int>, f': Forest<int>, f'': Forest<int>)
    requires Pruned(f, f') && Pruned(f', f'')
    ensures Pruned(f, f'')
  {
  }

  /** Moves every child of the root `z` to the root list. */
  method ReleaseChildren(k: Links, z: int, ghost g: Shape) returns (k': Links, ghost g': Shape)
    requires Shaped(k, g, NIL, {}) && IsRoot(g.forest, z)
    ensures Shaped(k', g', z, {}) && IsRoot(g'.forest, z) && z in g'.ring && g'.ring[z] == []
    ensures Pruned(g.forest, g'.forest) && |k'.parent| == |k.parent|
    ensures k' == Freed(k, z, At(k.child, z), At(k.degree, z))
  {
    hide Shaped, Listed, IsRoot, Pruned, Family, Without, InsertAfter, NoDup, Uprooted, Freed, ToRoots;
    k', g' := k, g;
    ReleaseStart(k, g, z);
    var numberofChildren := k.degree[z];
    var x := k.child[z];
    while numberofChildren > 0
      invariant Freed(k', z, x, numberofChildren) == Freed(k, z, k.child[z], k.degree[z])
      invariant Shaped(k', g', z, {}) && IsRoot(g'.forest, z) && Pruned(g.forest, g'.forest) && |k'.parent| == |k.parent|
      invariant z in g'.ring && |g'.ring[z]| == numberofChildren && (numberofChildren > 0 ==> x in g'.ring[z])
    {
      UprootFacts(k', g', x, z);
      FreedStep(k', z, x, numberofChildren);
      var tempRight := k'.right[x];
      var k1 := MoveToRoots(k', x, z, z, g');
      UprootShaped(k', k1, g', x, z);
      ghost var g1 := AfterUproot(g', x, z);
      PrunedTransitive(g.forest, g'.forest, g1.forest);
      k', g' := k1, g1;
      x := tempRight;
      numberofChildren := numberofChildren - 1;
    }
    FreedNone(k', z, x);
  }

  lemma FreedStep(k: Links, z: int, x: int, n: int)
    requires n > 0 && 0 <= x < |k.right|
    ensures Freed(k, z, x, n) == Freed(ToRoots(k, x, z), z, k.right[x], n - 1)
  {
  }

  lemma FreedNone(k: Links, z: int, x: int)
    ensures Freed(k, z, x, 0) == k
  {
  }

  lemma ReleaseStart(k: Links, g: Shape, z: int)
    requires Shaped(k, g, NIL, {}) && IsRoot(g.forest, z)
    ensures Shaped(k, g, z, {}) && Pruned(g.forest, g.forest) && 0 <= z < |k.degree| == |k.child|
    ensures z in g.ring && k.degree[z] == |g.ring[z]| && (|g.ring[z]| > 0 ==> k.child[z] in g.ring[z])
  {
  }

  ghost function AfterFell(g: Shape, z: int): Shape
    requires NIL in g.ring && z in g.ring[NIL]
  {
    Shape(g.ring[NIL := Without(g.ring[NIL], z)] - {z}, Felled(g.forest, z))
  }

  lemma FellFacts(k: Links, g: Shape, z: int)
    requires Shaped(k, g, z, {}) && IsRoot(g.forest, z) && z in g.ring && g.ring[z] == []
    ensures NIL in g.ring && z in g.ring[NIL] && z != NIL && 0 <= z < |k.left| == |k.right|
    ensures 0 <= k.left[z] < |k.left| && 0 <= k.right[z] < |k.right|
    ensures var k' := k.(left := UnlinkedLeft(k.left, k.right, z), right := UnlinkedRight(k.left, k.right, z));
            && Listed(k', AfterFell(g, z))
            && if k.right[z] == z then g.forest.nodes == {z} else IsRoot(g.forest, k.right[z])
  {
    RootListed(k, g, z, {});
    var nodes, r := g.forest.nodes, g.ring[NIL := Without(g.ring[NIL], z)];
    Unlink(nodes, g.ring, k.parent, k.left, k.right, z, NIL);
    FellPartition(nodes, r, k.parent, z);
    assert k.right[z] != z ==> IsRoot(g.forest, k.right[z]);
    if k.right[z] == z {
      FellLast(k, g, z);
    }
  }

  /** A root linked to itself is the only node, if it has no children. */
  lemma FellLast(k: Links, g: Shape, z: int)
    requires Shaped(k, g, z, {}) && IsRoot(g.forest, z) && z in g.ring && g.ring[z] == []
    requires 0 <= z < |k.right| && k.right[z] == z
    ensures g.forest.nodes == {z}
  {
    RootListed(k, g, z, {});
    var nodes, s := g.forest.nodes, g.ring[NIL];
    assert forall y :: IsRoot(g.forest, y) ==> y == z by { OnlyMember(s, z); }
    forall x | x in nodes ensures x == z { LoneRoot(g.forest, z, x); }
  }

  lemma OnlyMember(s: seq<int>, z: int)
    requires z in s && |s| == 1
    ensures forall x :: x in s ==> x == z
  {
  }

  lemma {:induction false} LoneRoot(f: Forest<int>, z: int, x: int)
    requires Family(f) && Ranked(f) && x in f.nodes && z in f.age && f.age[z] == []
    requires forall y :: IsRoot(f, y) ==> y == z
    ensures x == z
    decreases f.top - f.rank[x]
  {
    if x in f.up {
      assert x in f.age[f.up[x]];
      LoneRoot(f, z, f.up[x]);
    } else {
      assert IsRoot(f, x);
    }
  }

  lemma FellPartition(nodes: set<int>, ring: map<int, seq<int>>, parent: seq<int>, z: int)
    requires Partitioned(nodes, ring, parent, z) && z in nodes && ring[z] == []
    ensures Partitioned(nodes - {z}, ring - {z}, parent, NIL)
  {
    var r := ring - {z};
    assert forall q, c {:trigger c in r[q]} :: q in r && c in r[q] ==> c in ring[q];
    assert forall q :: q in r ==> NoDup(r[q]) by { hide NoDup; }
    forall y | y in nodes - {z} ensures parent[y] in r && y in r[parent[y]] {
      var q := parent[y];
      assert q in ring && y in ring[q];
    }
  }

  lemma FellShaped(k: Links, k': Links, g: Shape, z: int)
    requires Shaped(k, g, z, {}) && IsRoot(g.forest, z) && z in g.ring && g.ring[z] == [] && NIL in g.ring && z in g.ring[NIL]
    requires k' == k.(left := k'.left, right := k'.right) && Listed(k', AfterFell(g, z)) && z != NIL
    ensures Shaped(k', AfterFell(g, z), NIL, {})
  {
    assert NIL !in g.forest.nodes && g.forest.age[z] == [];
    hide Listed, NoDup, Family, Ranked, Marks, Fields, Counts;
    FelledWellFormed(g.forest, z);
    FellFields(k, k', g.forest, z);
    FellCounts(k, k', g, z);
  }

  lemma FellFields(k: Links, k': Links, f: Forest<int>, z: int)
    requires Fields(k, f) && Family(f) && z in f.nodes && z !in f.up && k' == k.(left := k'.left, right := k'.right)
    ensures Fields(k', Felled(f, z))
  {
  }

  lemma FellCounts(k: Links, k': Links, g: Shape, z: int)
    requires Counts(k, g, z) && NIL in g.ring && z in g.ring[NIL] && z != NIL && NIL !in g.forest.nodes
    requires k' == k.(left := k'.left, right := k'.right)
    ensures Counts(k', AfterFell(g, z), NIL)
  {
  }

  lemma FellOrdered(f: Forest<int>, keys: seq<int>, z: int)
    requires HeapOrdered(f, keys, NIL)
    ensures HeapOrdered(Felled(f, z), keys, NIL) && Felled(f, z).nodes == f.nodes - {z}
    ensures forall x :: IsRoot(f, x) && x != z ==> IsRoot(Felled(f, z), x)
  {
  }

  /** Takes the root `z` out of the heap and consolidates what is left. */
  method RemoveRoot(k: Links, z: int, keys: array<int>, ghost g: Shape) returns (k': Links, m': int, ghost g': Shape)
    requires Shaped(k, g, NIL, {}) && IsRoot(g.forest, z) && |g.forest.nodes| <= INT_MAX && HeapOrdered(g.forest, keys[..], NIL)
    ensures Shaped(k', g', NIL, {}) && HeapOrdered(g'.forest, keys[..], NIL) && g'.forest.nodes == g.forest.nodes - {z}
    ensures |k'.parent| == |k.parent| && if g'.forest.nodes == {} then m' == NIL else IsRoot(g'.forest, m')
    ensures Heap(k', m') == Removed(k, z, keys[..])
    ensures forall x :: x in g'.forest.nodes ==> 0 <= m' < keys.Length && 0 <= x < keys.Length && keys[m'] <= keys[x]
  {
    hide Shaped, Listed, IsRoot, Pruned, HeapOrdered, Without, Felled, Freed, Consolidated;
    ghost var g1;
    k', g1 := ReleaseChildren(k, z, g);
    PrunedOrdered(g.forest, g1.forest, keys[..], NIL);
    PrunedNodes(g.forest, g1.forest, z);
    FellFacts(k', g1, z);
    ghost var k1 := k';
    var left, right := k'.left, k'.right;
    right := right[left[z] := right[z]];
    left := left[right[z] := left[z]];
    k' := k'.(left := left, right := right);
    g' := AfterFell(g1, z);
    FellShaped(k1, k', g1, z);
    FellOrdered(g1.forest, keys[..], z);
    if z == k'.right[z] {
      m' := NIL;
    } else {
      SubsetSize(g1.forest.nodes - {z}, g.forest.nodes);
      k', m', g' := DegreewiseMerge(k', k'.right[z], keys, g');
    }
  }

  lemma PrunedNodes(f: Forest<int>, f': Forest<int>, z: int)
    requires Pruned(f, f') && IsRoot(f, z)
    ensures f'.nodes == f.nodes && z in f.nodes
  {
  }

  /** The links after the key of `x` was raised: it is cut off if it now exceeds the key of its parent. */
  method RaiseNode(k: Links, x: int, m: int, keys: array<int>, ghost g: Shape) returns (k': Links, ghost g': Shape)
    requires Shaped(k, g, NIL, {}) && x in g.forest.nodes && 0 <= x < keys.Length && HeapOrdered(g.forest, keys[..], x)
    requires IsRoot(g.forest, m) && 0 <= m < keys.Length
    requires forall y :: y in g.forest.nodes ==> 0 <= y < keys.Length && (y != x ==> keys[m] <= keys[y])
    ensures Shaped(k', g', NIL, {}) && HeapOrdered(g'.forest, keys[..], NIL) && g'.forest.nodes == g.forest.nodes
    ensures IsRoot(g'.forest, m) && |k'.parent| == |k.parent| && k' == Raised(k, x, m, keys[..])
    ensures IsRoot(g'.forest, x) || keys[m] <= keys[x]
  {
    hide *;
    NodeFacts(k, g, NIL, {}, x);
    RootMember(g.forest, m);
    var y := k.parent[x];
    RaisedIs(k, x, m, keys[..]);
    if y != NIL && -keys[x] > -keys[y] {
      var cut := Cut(k, x, y, m, g, {});
      ghost var g1 := AfterCut(g, x, y, m);
      CutPruned(g.forest, x);
      AfterCutForest(g, x, y, m);
      RootStays(g.forest, g1.forest, m);
      k', g' := CascadingCut(cut, y, m, g1);
      RootStays(g1.forest, g'.forest, m);
      RootStays(g1.forest, g'.forest, x);
      PrunedTransitive(g.forest, g1.forest, g'.forest);
      PrunedOrdered(g.forest, g'.forest, keys[..], x);
    } else {
      NotRaised(g.forest, keys[..], x);
      k', g' := k, g;
    }
  }

  lemma RaisedIs(k: Links, x: int, m: int, keys: seq<int>)
    requires 0 <= x < |k.parent| && x < |keys| && (k.parent[x] != NIL ==> 0 <= k.parent[x] < |keys|)
    ensures Raised(k, x, m, keys) ==
            if k.parent[x] != NIL && keys[x] < keys[k.parent[x]] then CutUp(CutOut(k, x, k.parent[x], m), k.parent[x], m) else k
  {
  }

  lemma AfterCutForest(g: Shape, x: int, y: int, m: int)
    requires Family(g.forest) && x in g.forest.up && g.forest.up[x] == y
    requires y in g.ring && x in g.ring[y] && NIL in g.ring && m in g.ring[NIL] && y != NIL
    ensures AfterCut(g, x, y, m).forest == CutOff(g.forest, x)
  {
  }

  // ---------------------------------------------------------------------- the heap

  lemma InsertOrdered(f: Forest<int>, keys: seq<int>, o: int, m: int)
    requires HeapOrdered(f, keys, NIL) && 0 <= o < |keys| && WellFormed(f, {}) && o !in f.nodes
    ensures HeapOrdered(Planted(f, o), keys, NIL) && Planted(f, o).nodes == f.nodes + {o} && IsRoot(Planted(f, o), o)
    ensures IsRoot(f, m) ==> IsRoot(Planted(f, o), m)
  {
  }

  lemma ShapedForest(k: Links, g: Shape)
    requires Shaped(k, g, NIL, {})
    ensures WellFormed(g.forest, {}) && Family(g.forest)
  {
  }

  lemma RaisedOrdered(f: Forest<int>, keys: seq<int>, x: int, v: int)
    requires HeapOrdered(f, keys, x) && 0 <= x < |keys| && v <= keys[x]
    ensures HeapOrdered(f, keys[x := v], x)
  {
  }

  lemma WeakerOrdered(f: Forest<int>, keys: seq<int>, x: int)
    requires HeapOrdered(f, keys, NIL)
    ensures HeapOrdered(f, keys, x)
  {
  }

  lemma CutPruned(f: Forest<int>, x: int)
    requires Family(f) && x in f.up
    ensures Pruned(f, CutOff(f, x)) && x !in CutOff(f, x).up
  {
  }

  lemma RootStays(f: Forest<int>, f': Forest<int>, m: int)
    requires Pruned(f, f') && m in f.nodes && m !in f.up
    ensures IsRoot(f', m) && f'.nodes == f.nodes && m !in f'.up
  {
  }

  lemma NotRaised(f: Forest<int>, keys: seq<int>, x: int)
    requires HeapOrdered(f, keys, x) && x in f.nodes && 0 <= x < |keys|
    requires x in f.up && f.up[x] in f.nodes ==> 0 <= f.up[x] < |keys| && keys[f.up[x]] <= keys[x]
    ensures HeapOrdered(f, keys, NIL) && (x !in f.up ==> IsRoot(f, x))
  {
  }

  lemma NoNodes(k: Links, g: Shape, ks: seq<int>)
    requires var none := seq(|ks|, _ => NIL); k == Links(none, none, none, none, seq(|ks|, _ => 0), seq(|ks|, _ => false))
    requires g == Shape(map[NIL := []], Forest({}, map[], map[], {}, map[], 0))
    ensures Shaped(k, g, NIL, {}) && HeapOrdered(g.forest, ks, NIL) && |k.parent| == |ks| && Heap(k, NIL) == Empty(|ks|)
  {
    assert NoDup<int>([]) by { NothingTwice<int>(); }
    assert IsRing([], k.left, k.right);
  }

  /** The fields of a heap agree with its shape and the key table, but for the key of `e`. */
  ghost predicate InOrder(k: Links, g: Shape, m: int, n: int, objects: set<int>, ks: seq<int>, e: int) {
    && Shaped(k, g, NIL, {}) && |k.parent| == |ks|
    && g.forest.nodes == objects && n == |objects| <= INT_MAX
    && HeapOrdered(g.forest, ks, e)
    && (if objects == {} then m == NIL else IsRoot(g.forest, m))
    && (forall x :: x in objects ==> 0 <= x < |ks| && 0 <= m < |ks|)
    && (forall x :: x in objects && x != e ==> ks[m] <= ks[x])
  }

  lemma InsertFacts(k: Links, g: Shape, m: int, n: int, objects: set<int>, ks: seq<int>, o: int)
    requires InOrder(k, g, m, n, objects, ks, NIL) && 0 <= o < |ks| && o !in objects
    ensures Shaped(k, g, NIL, {}) && o !in g.forest.nodes && |k.parent| == |ks| && (m != NIL ==> 0 <= m < |ks|) && n == |objects|
    ensures if m == NIL then g.forest.nodes == {} else IsRoot(g.forest, m)
  {
    hide Shaped, HeapOrdered;
  }

  lemma InsertKeeps(k: Links, k': Links, g: Shape, m: int, n: int, objects: set<int>, ks: seq<int>, o: int)
    requires InOrder(k, g, m, n, objects, ks, NIL) && 0 <= o < |ks| && o !in objects && n < INT_MAX && |k'.parent| == |k.parent|
    requires NIL in g.ring && (m != NIL ==> m in g.ring[NIL]) && Shaped(k', AfterInsert(g, o, m), NIL, {}) && (m != NIL ==> 0 <= m < |ks|)
    ensures InOrder(k', AfterInsert(g, o, m), if m == NIL || ks[o] < ks[m] then o else m, n + 1, objects + {o}, ks, NIL)
  {
    hide Shaped, IsRoot, HeapOrdered, Planted;
    ShapedForest(k, g);
    InsertOrdered(g.forest, ks, o, m);
  }

  class FibonacciHeap {
    /** The table behind the key function; a smaller entry is a larger key. */
    const keys: array<int>
    /** The fields of the nodes; a node is named by the object it holds. */
    var links: Links
    var maxNode: int
    var numberOfNodes: int
    /** The keys of nodeObjectMap. */
    var objects: set<int>
    ghost var shape: Shape

    /** What decides all that the heap does from now on. */
    ghost function State(): Heap
      reads this
    {
      Heap(links, maxNode)
    }

    function Key(x: int): int
      requires 0 <= x < keys.Length
      reads keys
    {
      -keys[x]
    }

    /** The heap invariant for the key table `ks`, but for the key of `e`. */
    ghost predicate ValidFor(ks: seq<int>, e: int)
      reads this
    {
      InOrder(links, shape, maxNode, numberOfNodes, objects, ks, e)
    }

    /** The invariant once the owner of the table may have raised the key of `e`. */
    ghost predicate ValidExcept(e: int)
      reads this, keys
    {
      ValidFor(keys[..], e)
    }

    lemma ValidKeys(e: int)
      ensures ValidExcept(e) <==> ValidFor(keys[..], e)
      ensures Valid() <==> ValidExcept(NIL)
    {
    }

    /** Raising the key of one object, by lowering its entry, disturbs nothing but that object. */
    lemma Raised(ks: seq<int>, x: int, v: int)
      requires ValidFor(ks, NIL) && x in objects && 0 <= x < |ks| && v <= ks[x]
      ensures ValidFor(ks[x := v], x)
    {
      hide Shaped, HeapOrdered, IsRoot;
      assert HeapOrdered(shape.forest, ks, x) by { WeakerOrdered(shape.forest, ks, x); }
      RaisedOrdered(shape.forest, ks, x, v);
    }

    ghost predicate Valid()
      reads this, keys
    {
      ValidExcept(NIL)
    }

    constructor (keys: array<int>)
      ensures Valid() && objects == {} && this.keys == keys && State() == Empty(keys.Length)
    {
      hide Empty, Shaped, HeapOrdered, IsRoot;
      this.keys := keys;
      var none := seq(keys.Length, _ => NIL);
      links := Links(none, none, none, none, seq(keys.Length, _ => 0), seq(keys.Length, _ => false));
      maxNode := NIL;
      numberOfNodes := 0;
      objects := {};
      shape := Shape(map[NIL := []], Forest({}, map[], map[], {}, map[], 0));
      new;
      NoNodes(links, shape, keys[..]);
    }

    method Size() returns (n: int)
      requires Valid()
      ensures n == |objects|
    {
      n := numberOfNodes;
    }

    method Insert(nodeObject: int)
      requires Valid() && 0 <= nodeObject < keys.Length && nodeObject !in objects && |objects| < INT_MAX
      modifies this
      ensures Valid() && objects == old(objects) + {nodeObject}
      ensures State() == WithNode(old(State()), keys[..], nodeObject)
    {
      hide InOrder, Shaped, IsRoot, Entered, AfterInsert;
      InsertFacts(links, shape, maxNode, numberOfNodes, objects, keys[..], nodeObject);
      var k := InsertNode(links, nodeObject, maxNode, shape);
      InsertKeeps(links, k, shape, maxNode, numberOfNodes, objects, keys[..], nodeObject);
      links := k;
      shape := AfterInsert(shape, nodeObject, maxNode);
      if maxNode == NIL || Key(nodeObject) > Key(maxNode) {
        maxNode := nodeObject;
      }
      numberOfNodes := numberOfNodes + 1;
      objects := objects + {nodeObject};
    }

    /** Called after the owner of the table has raised the key of `nodeObject`. */
    method UpdateKey(nodeObject: int)
      requires ValidExcept(nodeObject) && nodeObject in objects && 0 <= nodeObject < keys.Length
      modifies this, keys
      ensures Valid() && objects == old(objects) && keys[..] == old(keys[..])
      ensures State() == WithRaised(old(State()), keys[..], nodeObject)
    {
      hide ValidExcept, WithRaised;
      IncreaseKey(nodeObject, Key(nodeObject));
      assert keys[..] == old(keys[..]);
    }

    method IncreaseKey(x: int, k: int)
      requires ValidExcept(x) && x in objects && 0 <= x < keys.Length && Key(x) <= k
      modifies this, keys
      ensures Valid() && objects == old(objects)
      ensures keys[..] == old(keys[..])[x := -k]
      ensures State() == WithRaised(old(State()), keys[..], x)
    {
      hide Shaped, IsRoot, HeapOrdered, HeapSteps.Raised;
      RaisedOrdered(shape.forest, keys[..], x, -k);
      keys[x] := -k;
      assert keys[..] == old(keys[..])[x := -k];
      links, shape := RaiseNode(links, x, maxNode, keys, shape);
      if Key(x) > Key(maxNode) {
        maxNode := x;
      }
    }

    /** Takes out the node of the largest key; NIL if the heap is empty. */
    method RemoveMax() returns (z: int)
      requires Valid()
      modifies this
      ensures Valid() && z == old(State()).maxNode && State() == WithoutMax(old(State()), keys[..])
      ensures old(objects) == {} ==> z == NIL && objects == {}
      ensures old(objects) != {} ==>
          && z in old(objects) && objects == old(objects) - {z}
          && (forall x :: x in old(objects) ==> 0 <= x < keys.Length && 0 <= z < keys.Length && Key(x) <= Key(z) && keys[z] <= keys[x])
    {
      hide Shaped, IsRoot, HeapOrdered, Removed;
      z := maxNode;
      if objects != {} {
        RootMember(shape.forest, maxNode);
        assert maxNode in objects;
      }
      if z != NIL {
        RootMember(shape.forest, z);
        links, maxNode, shape := RemoveRoot(links, z, keys, shape);
        objects := objects - {z};
        numberOfNodes := numberOfNodes - 1;
      }
    }
  }
}
