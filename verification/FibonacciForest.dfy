/**
 * The forest kept by the Fibonacci heap, as a value: who is whose parent, in which order the
 * children were linked, and which nodes are marked.  Everything that does not depend on the
 * pointers is stated and proved here, in particular the bound on the degree of a root.
 */
module FibonacciForest {

  /** The largest value of a C++ `int`. */
  const INT_MAX: int := 0x7FFF_FFFF

  ghost predicate NoDup<T>(s: seq<T>) {
    forall i, j :: 0 <= i < j < |s| ==> s[i] != s[j]
  }

  ghost function IndexOf<T>(s: seq<T>, x: T): (k: nat)
    requires x in s
    ensures k < |s| && s[k] == x
  {
    var k :| 0 <= k < |s| && s[k] == x;
    k
  }

  ghost function Without<T>(s: seq<T>, x: T): (r: seq<T>)
    requires x in s
    ensures |r| == |s| - 1
    ensures forall y :: y in s && y != x ==> y in r
    ensures forall y :: y in r ==> y in s
    ensures NoDup(s) ==> NoDup(r) && x !in r
  {
    var k := IndexOf(s, x);
    var r := s[..k] + s[k + 1..];
    assert forall j :: 0 <= j < |s| && j != k ==> s[j] == r[if j < k then j else j - 1];
    r
  }

  ghost function InsertAfter<T>(s: seq<T>, m: T, x: T): (r: seq<T>)
    requires m in s
    ensures |r| == |s| + 1
    ensures x in r && forall y :: y in s ==> y in r
    ensures forall y :: y in r ==> y == x || y in s
    ensures NoDup(s) && x !in s ==> NoDup(r)
  {
    var k := IndexOf(s, m);
    var r := s[..k + 1] + [x] + s[k + 1..];
    assert s == s[..k + 1] + s[k + 1..];
    assert r[k + 1] == x;
    r
  }

  lemma WithoutPrefix<T>(a: seq<T>, u: seq<T>, x: T)
    requires NoDup(a + u) && x in a
    ensures Without(a + u, x) == Without(a, x) + u
  {
    var k := IndexOf(a, x);
    assert (a + u)[k] == x;
    assert IndexOf(a + u, x) == k;
  }

  /**
   * `up` maps every node that is not a root to its parent, `age` lists the children of a node
   * in the order of linking, and `rank` decreases strictly from parent to child.
   */
  datatype Forest<N> = Forest(nodes: set<N>, up: map<N, N>, age: map<N, seq<N>>, marked: set<N>,
                              rank: map<N, nat>, top: nat)

  ghost predicate Family<N>(f: Forest<N>) {
    && f.age.Keys == f.nodes && f.up.Keys <= f.nodes
    && (forall p :: p in f.age ==> NoDup(f.age[p]))
    && (forall p, c {:trigger c in f.age[p]} :: p in f.age && c in f.age[p] ==> c in f.up && f.up[c] == p)
    && (forall c :: c in f.up ==> f.up[c] in f.age && c in f.age[f.up[c]])
  }

  ghost predicate Ranked<N>(f: Forest<N>) {
    && f.rank.Keys == f.nodes
    && (forall x :: x in f.nodes ==> f.rank[x] <= f.top)
    && (forall c :: c in f.up ==> c in f.nodes && f.up[c] in f.nodes && f.rank[c] < f.rank[f.up[c]])
  }

  /** The children `c` has had since it was linked, counting those it may have lost. */
  ghost function Credit<N>(f: Forest<N>, c: N, short: set<N>): nat
    requires c in f.age
  {
    |f.age[c]| + (if c in f.marked then 1 else 0) + (if c in short then 1 else 0)
  }

  /**
   * The i-th child linked to a node had degree at least i at that time and has lost at most one
   * child since, which its mark records.  Nodes in `short` lost one that no mark records yet.
   */
  ghost predicate Marks<N>(f: Forest<N>, short: set<N>) {
    forall p, i :: p in f.age && 0 <= i < |f.age[p]| && f.age[p][i] in f.age ==> Credit(f, f.age[p][i], short) >= i
  }

  ghost predicate WellFormed<N>(f: Forest<N>, short: set<N>) {
    Family(f) && Ranked(f) && Marks(f, short)
  }

  // ------------------------------------------------------------- the operations

  ghost function Planted<N>(f: Forest<N>, x: N): Forest<N> {
    f.(nodes := f.nodes + {x}, age := f.age[x := []], rank := f.rank[x := 0], marked := f.marked - {x})
  }

  lemma PlantedWellFormed<N>(f: Forest<N>, x: N)
    requires WellFormed(f, {}) && x !in f.nodes
    ensures WellFormed(Planted(f, x), {})
  {
    var g := Planted(f, x);
    PlantedFamily(f, x);
    hide Family, Ranked;
    forall p, i | p in g.age && 0 <= i < |g.age[p]| && g.age[p][i] in g.age
      ensures Credit(g, g.age[p][i], {}) >= i
    {
      OldChild(f, x, p, i);
      assert Credit(f, f.age[p][i], {}) >= i;
    }
  }

  lemma PlantedFamily<N>(f: Forest<N>, x: N)
    requires Family(f) && Ranked(f) && x !in f.nodes
    ensures Family(Planted(f, x)) && Ranked(Planted(f, x))
  {
    var g := Planted(f, x);
    assert forall p :: p in f.age ==> g.age[p] == f.age[p] && p != x;
    assert g.age[x] == [];
    hide NoDup;
    assert NoDup(g.age[x]) by { NothingTwice<N>(); }
    forall p, c {:trigger c in g.age[p]} | p in g.age && c in g.age[p] ensures c in g.up && g.up[c] == p {
      assert c in f.age[p];
    }
  }

  lemma NothingTwice<N>()
    ensures NoDup<N>([])
  {
  }

  lemma OldChild<N>(f: Forest<N>, x: N, p: N, i: int)
    requires Family(f) && Ranked(f) && x !in f.nodes && p in Planted(f, x).age && 0 <= i < |Planted(f, x).age[p]|
    ensures p in f.age && i < |f.age[p]| && f.age[p][i] in f.age && f.age[p][i] != x && Planted(f, x).age[p] == f.age[p]
  {
    assert p != x && Planted(f, x).age[p] == f.age[p];
    assert f.age[p][i] in f.age[p];
  }

  /** `x` becomes a root; its mark stays. */
  ghost function Uprooted<N>(f: Forest<N>, x: N): Forest<N>
    requires Family(f) && x in f.up
  {
    f.(up := f.up - {x}, age := f.age[f.up[x] := Without(f.age[f.up[x]], x)])
  }

  lemma UprootedFamily<N>(f: Forest<N>, x: N)
    requires Family(f) && Ranked(f) && x in f.up
    ensures Family(Uprooted(f, x)) && Ranked(Uprooted(f, x))
  {
  }

  lemma UprootedMarks<N>(f: Forest<N>, x: N, short: set<N>)
    requires Family(f) && Ranked(f) && Marks(f, short) && x in f.up && f.up[x] !in short
    ensures Marks(Uprooted(f, x), short + {f.up[x]})
    ensures f.up[x] !in f.up ==> Marks(Uprooted(f, x), short)
  {
    var g, y := Uprooted(f, x), f.up[x];
    var k := IndexOf(f.age[y], x);
    forall p, i | p in g.age && 0 <= i < |g.age[p]| && g.age[p][i] in g.age
      ensures Credit(g, g.age[p][i], short + {y}) >= i
      ensures y !in f.up ==> Credit(g, g.age[p][i], short) >= i
    {
      var c := g.age[p][i];
      var j := if p == y && i >= k then i + 1 else i;
      assert c == f.age[p][j];
      assert Credit(f, c, short) >= j;
      assert c in f.age[p] && f.up[c] == p && f.rank[c] < f.rank[p];
    }
  }

  /** What cut does: `x` becomes an unmarked root. */
  ghost function CutOff<N>(f: Forest<N>, x: N): Forest<N>
    requires Family(f) && x in f.up
  {
    Uprooted(f, x).(marked := f.marked - {x})
  }

  lemma RootMarkIdle<N>(f: Forest<N>, x: N, short: set<N>)
    requires Family(f) && Marks(f, short) && x !in f.up
    ensures Marks(f.(marked := f.marked - {x}), short)
  {
    var h := f.(marked := f.marked - {x});
    forall p, i | p in h.age && 0 <= i < |h.age[p]| && h.age[p][i] in h.age
      ensures Credit(h, h.age[p][i], short) >= i
    {
      assert f.age[p][i] in f.age[p];
      assert Credit(f, f.age[p][i], short) >= i;
    }
  }

  lemma MarksApart<N>(f: Forest<N>, marked: set<N>)
    ensures Family(f.(marked := marked)) == Family(f) && Ranked(f.(marked := marked)) == Ranked(f)
  {
  }

  lemma ShortGone<N>(f: Forest<N>, x: N, y: N, short: set<N>)
    requires Family(f) && Marks(f, short + {y}) && x !in f.up && short <= {x}
    ensures Marks(f, {y})
  {
    forall p, i | p in f.age && 0 <= i < |f.age[p]| && f.age[p][i] in f.age
      ensures Credit(f, f.age[p][i], {y}) >= i
    {
      assert f.age[p][i] in f.age[p];
      assert Credit(f, f.age[p][i], short + {y}) >= i;
    }
  }

  lemma CutOffWellFormed<N>(f: Forest<N>, x: N, short: set<N>)
    requires WellFormed(f, short) && x in f.up && short <= {x}
    ensures WellFormed(CutOff(f, x), {f.up[x]})
    ensures x !in CutOff(f, x).up
  {
    var g, y := Uprooted(f, x), f.up[x];
    assert y !in short && x !in g.up && Family(f) && Ranked(f) && Marks(f, short);
    hide Family, Ranked, Marks;
    UprootedFamily(f, x);
    UprootedMarks(f, x, short);
    ShortGone(g, x, y, short);
    RootMarkIdle(g, x, {y});
    MarksApart(g, g.marked - {x});
  }

  /** What cascadingCut does to an unmarked child. */
  ghost function Marked<N>(f: Forest<N>, y: N): Forest<N> {
    f.(marked := f.marked + {y})
  }

  lemma MarkedWellFormed<N>(f: Forest<N>, y: N)
    requires WellFormed(f, {y}) && y !in f.marked
    ensures WellFormed(Marked(f, y), {})
  {
    var g := Marked(f, y);
    MarksApart(f, g.marked);
    hide Family, Ranked;
    forall p, i | p in g.age && 0 <= i < |g.age[p]| && g.age[p][i] in g.age
      ensures Credit(g, g.age[p][i], {}) >= i
    {
      assert Credit(f, f.age[p][i], {y}) >= i;
    }
  }

  /** A root needs no credit. */
  lemma RootNotShort<N>(f: Forest<N>, y: N)
    requires WellFormed(f, {y}) && y !in f.up
    ensures WellFormed(f, {})
  {
    forall p, i | p in f.age && 0 <= i < |f.age[p]| && f.age[p][i] in f.age
      ensures Credit(f, f.age[p][i], {}) >= i
    {
      assert f.age[p][i] in f.age[p];
      assert Credit(f, f.age[p][i], {y}) >= i;
    }
  }

  /** What makeChild does: the root `y` becomes the youngest child of the root `x`. */
  ghost function Adopted<N>(f: Forest<N>, y: N, x: N): Forest<N>
    requires Family(f) && Ranked(f) && x in f.nodes && y in f.nodes
  {
    var r := if f.rank[x] <= f.rank[y] then f.rank[y] + 1 else f.rank[x];
    f.(up := f.up[y := x], age := f.age[x := f.age[x] + [y]], marked := f.marked - {y},
       rank := f.rank[x := r], top := if f.top < r then r else f.top)
  }

  lemma AdoptedFamily<N>(f: Forest<N>, y: N, x: N)
    requires Family(f) && Ranked(f) && x in f.nodes && y in f.nodes && x != y && x !in f.up && y !in f.up
    ensures Family(Adopted(f, y, x))
  {
    hide Ranked;
    assert y !in f.age[x];
  }

  lemma AdoptedRanked<N>(f: Forest<N>, y: N, x: N)
    requires Family(f) && Ranked(f) && x in f.nodes && y in f.nodes && x != y && x !in f.up && y !in f.up
    ensures Ranked(Adopted(f, y, x))
  {
    hide NoDup;
  }

  lemma AdoptedMarks<N>(f: Forest<N>, y: N, x: N)
    requires Family(f) && Ranked(f) && Marks(f, {}) && x in f.nodes && y in f.nodes && x != y
    requires x !in f.up && y !in f.up && |f.age[x]| == |f.age[y]|
    ensures Marks(Adopted(f, y, x), {})
  {
    var g := Adopted(f, y, x);
    forall p, i | p in g.age && 0 <= i < |g.age[p]| && g.age[p][i] in g.age
      ensures Credit(g, g.age[p][i], {}) >= i
    {
      if p == x && i == |f.age[x]| {
        assert g.age[p][i] == y;
      } else {
        assert g.age[p][i] == f.age[p][i] && f.age[p][i] in f.age[p];
        assert Credit(f, f.age[p][i], {}) >= i;
      }
    }
  }

  lemma AdoptedWellFormed<N>(f: Forest<N>, y: N, x: N)
    requires WellFormed(f, {}) && x in f.nodes && y in f.nodes && x != y
    requires x !in f.up && y !in f.up && |f.age[x]| == |f.age[y]|
    ensures WellFormed(Adopted(f, y, x), {})
  {
    hide Family, Ranked, Marks, NoDup;
    AdoptedFamily(f, y, x);
    AdoptedRanked(f, y, x);
    AdoptedMarks(f, y, x);
  }

  /** What is left when a childless root is taken out. */
  ghost function Felled<N>(f: Forest<N>, z: N): Forest<N> {
    f.(nodes := f.nodes - {z}, age := f.age - {z}, rank := f.rank - {z}, marked := f.marked - {z})
  }

  lemma FelledWellFormed<N>(f: Forest<N>, z: N)
    requires WellFormed(f, {}) && z in f.nodes && z !in f.up && f.age[z] == []
    ensures WellFormed(Felled(f, z), {})
  {
    var g := Felled(f, z);
    forall p, i | p in g.age && 0 <= i < |g.age[p]| && g.age[p][i] in g.age
      ensures Credit(g, g.age[p][i], {}) >= i
    {
      assert Credit(f, f.age[p][i], {}) >= i;
    }
  }

  // --------------------------------------------------- how large a subtree must be

  ghost predicate Descends<N>(f: Forest<N>, a: N, c: N)
    requires Ranked(f) && a in f.nodes
    decreases f.top - f.rank[a]
  {
    a == c || (a in f.up && Descends(f, f.up[a], c))
  }

  ghost function Subtree<N>(f: Forest<N>, c: N): set<N>
    requires Ranked(f)
  {
    set a | a in f.nodes && Descends(f, a, c)
  }

  lemma {:induction false} DescendsRank<N>(f: Forest<N>, a: N, c: N)
    requires Ranked(f) && a in f.nodes && c in f.nodes && Descends(f, a, c)
    ensures f.rank[a] <= f.rank[c]
    decreases f.top - f.rank[a]
  {
    if a == c {
    } else {
      DescendsRank(f, f.up[a], c);
    }
  }

  lemma {:induction false} DescendsUp<N>(f: Forest<N>, a: N, c: N)
    requires Ranked(f) && a in f.nodes && c in f.up && Descends(f, a, c)
    ensures Descends(f, a, f.up[c])
    decreases f.top - f.rank[a]
  {
    if a == c {
      assert Descends(f, f.up[c], f.up[c]);
    } else {
      DescendsUp(f, f.up[a], c);
    }
  }

  lemma {:induction false} SiblingsApart<N>(f: Forest<N>, a: N, b: N, c: N)
    requires Ranked(f) && a in f.nodes && b in f.up && c in f.up && b != c && f.up[b] == f.up[c]
    ensures !(Descends(f, a, b) && Descends(f, a, c))
    decreases f.top - f.rank[a]
  {
    if Descends(f, a, b) && Descends(f, a, c) {
      if a == b {
        DescendsRank(f, f.up[b], c);
      } else if a == c {
        DescendsRank(f, f.up[c], b);
      } else {
        SiblingsApart(f, f.up[a], b, c);
      }
    }
  }

  function Fib(n: nat): nat {
    if n < 2 then n else Fib(n - 1) + Fib(n - 2)
  }

  lemma {:induction false} FibMonotone(m: nat, n: nat)
    requires m <= n
    ensures Fib(m) <= Fib(n)
    decreases n
  {
    if m == n {
    } else {
      FibMonotone(m, n - 1);
      assert n >= 2 ==> Fib(n) == Fib(n - 1) + Fib(n - 2);
    }
  }

  lemma FibJump(n: nat)
    ensures Fib(n + 7) == 13 * Fib(n + 1) + 8 * Fib(n)
    ensures Fib(n + 8) == 21 * Fib(n + 1) + 13 * Fib(n)
    ensures Fib(n + 9) == 34 * Fib(n + 1) + 21 * Fib(n)
  {
    assert Fib(n + 2) == Fib(n + 1) + Fib(n);
    assert Fib(n + 3) == 2 * Fib(n + 1) + Fib(n);
    assert Fib(n + 4) == 3 * Fib(n + 1) + 2 * Fib(n);
    assert Fib(n + 5) == 5 * Fib(n + 1) + 3 * Fib(n);
    assert Fib(n + 6) == 8 * Fib(n + 1) + 5 * Fib(n);
    assert Fib(n + 7) == 13 * Fib(n + 1) + 8 * Fib(n);
  }

  /** The 47th Fibonacci number exceeds every `int`. */
  lemma Fib47(n: nat)
    requires 46 < n < 48
    ensures Fib(n) == 2971215073 > 0x7FFF_FFFF
  {
    assert Fib(n - 47) == 0 && Fib(n - 46) == 1;
    hide Fib;
    FibJump(n - 47);
    FibJump(n - 39);
    FibJump(n - 31);
    FibJump(n - 23);
    FibJump(n - 15);
    FibJump(n - 7);
  }

  /** The node `x` and the subtrees of its first k children. */
  ghost function Older<N>(f: Forest<N>, x: N, k: nat): set<N>
    requires Family(f) && Ranked(f) && x in f.nodes && k <= |f.age[x]|
  {
    {x} + set a, i | a in f.nodes && 0 <= i < k && Descends(f, a, f.age[x][i]) :: a
  }

  lemma OlderStep<N>(f: Forest<N>, x: N, k: nat)
    requires Family(f) && Ranked(f) && x in f.nodes && k < |f.age[x]|
    ensures |Older(f, x, k + 1)| == |Older(f, x, k)| + |Subtree(f, f.age[x][k])|
  {
    var c := f.age[x][k];
    assert c in f.age[x];
    assert Older(f, x, k + 1) == Older(f, x, k) + Subtree(f, c);
    forall a | a in Subtree(f, c)
      ensures a !in Older(f, x, k)
    {
      DescendsRank(f, a, c);
      forall i | 0 <= i < k
        ensures !Descends(f, a, f.age[x][i])
      {
        assert f.age[x][i] in f.age[x] && f.age[x][i] != c;
        SiblingsApart(f, a, f.age[x][i], c);
      }
    }
    assert Older(f, x, k) !! Subtree(f, c);
  }

  lemma OlderWithin<N>(f: Forest<N>, x: N, k: nat)
    requires Family(f) && Ranked(f) && x in f.nodes && k <= |f.age[x]|
    ensures Older(f, x, k) <= Subtree(f, x)
  {
    forall a | a in Older(f, x, k)
      ensures a in Subtree(f, x)
    {
      if a != x {
        var i :| 0 <= i < k && Descends(f, a, f.age[x][i]);
        assert f.age[x][i] in f.age[x];
        DescendsUp(f, a, f.age[x][i]);
      }
    }
  }

  lemma ChildCredit<N>(f: Forest<N>, x: N, i: nat)
    requires WellFormed(f, {}) && x in f.age && i < |f.age[x]|
    ensures f.age.Keys == f.rank.Keys == f.nodes
    ensures f.age[x][i] in f.nodes && f.rank[f.age[x][i]] < f.rank[x] && |f.age[f.age[x][i]]| + 1 >= i
  {
    assert f.age[x][i] in f.age[x];
    assert Credit(f, f.age[x][i], {}) >= i;
  }

  lemma FibStep(k: nat, d: nat)
    requires 1 <= k <= d + 2
    ensures Fib(k + 2) <= Fib(k + 1) + Fib(d + 2)
  {
    FibMonotone(if k >= 2 then k else 2, d + 2);
  }

  lemma {:induction false} OlderSize<N>(f: Forest<N>, x: N, k: nat)
    requires WellFormed(f, {}) && x in f.nodes && k <= |f.age[x]|
    ensures |Older(f, x, k)| >= Fib(k + 2)
    decreases f.rank[x], k
  {
    if k == 0 {
      assert Older(f, x, 0) == {x};
    } else {
      hide Family, Ranked, Marks, NoDup, Older, Subtree, Descends, Fib;
      ChildCredit(f, x, k - 1);
      OlderStep(f, x, k - 1);
      OlderSize(f, x, k - 1);
      SubtreeSize(f, f.age[x][k - 1]);
      FibStep(k, |f.age[f.age[x][k - 1]]|);
    }
  }

  /** A node of degree d has at least Fib(d + 2) nodes below it, itself included. */
  lemma {:induction false} SubtreeSize<N>(f: Forest<N>, x: N)
    requires WellFormed(f, {}) && x in f.nodes
    ensures |Subtree(f, x)| >= Fib(|f.age[x]| + 2)
    decreases f.rank[x], |f.age[x]| + 1
  {
    OlderSize(f, x, |f.age[x]|);
    OlderWithin(f, x, |f.age[x]|);
    SubsetSize(Older(f, x, |f.age[x]|), Subtree(f, x));
  }

  lemma SubsetSize<T>(a: set<T>, b: set<T>)
    requires a <= b
    ensures |a| <= |b|
  {
    assert b == a + (b - a);
  }

  lemma DegreeBelow45(d: nat, size: nat)
    requires Fib(d + 2) <= size <= INT_MAX
    ensures d < 45
  {
    if d >= 45 {
      var n :| 46 < n < 48;
      FibMonotone(n, d + 2);
      Fib47(n);
    }
  }

  /** Slot 44 is the last one of the degree table that any node count fitting an `int` can need. */
  lemma DegreeBound<N>(f: Forest<N>, x: N)
    requires WellFormed(f, {}) && x in f.nodes && |f.nodes| <= INT_MAX
    ensures |f.age[x]| < 45
  {
    hide Ranked, Marks, NoDup, Descends, Fib;
    SubtreeSize(f, x);
    SubsetSize(Subtree(f, x), f.nodes);
    DegreeBelow45(|f.age[x]|, |f.nodes|);
  }
}
