/** The depth-first walk of an octree arena that the renderer performs: a
    node, then the walks of its eight children in sibling order. The main
    result is that the walk from the root lists every node exactly once. */
module TreeWalk {
  import opened OctreeNodes
  import opened NodeArena

  /** The first child of a split node, as a plain index. */
  function FirstChildIndex(ns: seq<Node>, i: nat): (c: nat)
    requires WellFormed(ns, -1) && i < |ns| && ns[i].isSplit
    ensures i < c && c + 8 <= |ns|
  {
    NodeAt(ns, i, -1);
    ns[i].firstChild.index
  }

  /** Child m of a split node, m < 8. */
  function Child(ns: seq<Node>, i: nat, m: nat): (b: nat)
    requires WellFormed(ns, -1) && i < |ns| && ns[i].isSplit && m < 8
    ensures i < b < |ns| && b == FirstChildIndex(ns, i) + m
  {
    FirstChildIndex(ns, i) + m
  }

  /** The walk from node i: i itself, then its children's walks in order. */
  function PreOrder(ns: seq<Node>, i: nat): (r: seq<nat>)
    requires WellFormed(ns, -1) && i < |ns|
    ensures forall x :: x in r ==> i <= x < |ns|
    decreases |ns| - i, 1, 0
  {
    [i] + if ns[i].isSplit then KidsUpTo(ns, i, 8) else []
  }

  /** The walks of the first k children of split node i, concatenated. */
  function KidsUpTo(ns: seq<Node>, i: nat, k: nat): (r: seq<nat>)
    requires WellFormed(ns, -1) && i < |ns| && ns[i].isSplit && k <= 8
    ensures forall x :: x in r ==> i < x < |ns|
    decreases |ns| - i, 0, k
  {
    if k == 0 then [] else KidsUpTo(ns, i, k - 1) + PreOrder(ns, Child(ns, i, k - 1))
  }

  /** The parent index of a node other than the root. */
  function ParentIndex(ns: seq<Node>, j: nat): (p: nat)
    requires WellFormed(ns, -1) && 0 < j < |ns|
    ensures p < j && ns[p].isSplit
    ensures FirstChildIndex(ns, p) <= j < FirstChildIndex(ns, p) + 8
  {
    NodeAt(ns, j, -1);
    ns[j].parent.index
  }

  /** Node a is j or an ancestor of j along the parent pointers. */
  ghost predicate Desc(ns: seq<Node>, a: nat, j: nat)
    requires WellFormed(ns, -1) && a < |ns| && j < |ns|
    decreases j
  {
    if j == a then true
    else if j < a || j == 0 then false
    else Desc(ns, a, ParentIndex(ns, j))
  }

  lemma {:induction false} DescLe(ns: seq<Node>, a: nat, j: nat)
    requires WellFormed(ns, -1) && a < |ns| && j < |ns| && Desc(ns, a, j)
    ensures a <= j
    decreases j
  {
    if j != a && j >= a && j != 0 {
      DescLe(ns, a, ParentIndex(ns, j));
    }
  }

  /** The root is an ancestor of every node. */
  lemma {:induction false} RootDesc(ns: seq<Node>, j: nat)
    requires WellFormed(ns, -1) && j < |ns|
    ensures Desc(ns, 0, j)
    decreases j
  {
    if j > 0 {
      RootDesc(ns, ParentIndex(ns, j));
    }
  }

  /** The child of i on the path down to a proper descendant j. */
  ghost function Branch(ns: seq<Node>, i: nat, j: nat): (b: nat)
    requires WellFormed(ns, -1) && i < |ns| && j < |ns| && Desc(ns, i, j) && j != i
    ensures i < b <= j && ParentIndex(ns, b) == i && Desc(ns, b, j)
    decreases j
  {
    var p := ParentIndex(ns, j);
    if p == i then j
    else
      var b := Branch(ns, i, p);
      assert Desc(ns, b, j) by { DescLe(ns, b, p); }
      b
  }

  /** Below a child b of i lie exactly the proper descendants of i whose
      path from i passes through b. */
  lemma {:induction false} DescChild(ns: seq<Node>, i: nat, b: nat, j: nat)
    requires WellFormed(ns, -1) && i < b < |ns| && j < |ns| && ParentIndex(ns, b) == i
    ensures Desc(ns, b, j) <==> j != i && Desc(ns, i, j) && Branch(ns, i, j) == b
    decreases j
  {
    if Desc(ns, b, j) {
      DescLe(ns, b, j);
      if j != b {
        var p := ParentIndex(ns, j);
        DescChild(ns, i, b, p);
      }
    }
    if j != i && Desc(ns, i, j) && Branch(ns, i, j) == b {
      var p := ParentIndex(ns, j);
      if p != i {
        DescChild(ns, i, b, p);
        DescLe(ns, b, p);
      }
    }
  }

  /** The children of a split node point back at it. */
  lemma ChildParent(ns: seq<Node>, i: nat, m: nat)
    requires WellFormed(ns, -1) && i < |ns| && ns[i].isSplit && m < 8
    ensures 0 < FirstChildIndex(ns, i) + m < |ns|
    ensures ParentIndex(ns, FirstChildIndex(ns, i) + m) == i
  {
    var c := FirstChildIndex(ns, i);
    NodeAt(ns, i, -1);
    assert IsChild(ns[i], i, c, m, ns[c + m]);
  }

  /** j lies strictly below the split node i, under one of its first k children. */
  ghost predicate Under(ns: seq<Node>, i: nat, j: nat, k: nat)
    requires WellFormed(ns, -1) && i < |ns| && ns[i].isSplit && j < |ns|
  {
    j != i && Desc(ns, i, j) && Branch(ns, i, j) < FirstChildIndex(ns, i) + k
  }

  /** The walk from i lists each node below i exactly once, and nothing else. */
  lemma {:induction false} PreOrderCount(ns: seq<Node>, i: nat, j: nat)
    requires WellFormed(ns, -1) && i < |ns| && j < |ns|
    ensures multiset(PreOrder(ns, i))[j] == if Desc(ns, i, j) then 1 else 0
    decreases |ns| - i, 1, 0
  {
    if ns[i].isSplit {
      KidsCount(ns, i, 8, j);
      if Desc(ns, i, j) && j != i {
        var b := Branch(ns, i, j);
        assert Under(ns, i, j, 8);
      }
    } else if Desc(ns, i, j) && j != i {
      var b := Branch(ns, i, j);
      assert false;
    }
  }

  lemma {:induction false} KidsCount(ns: seq<Node>, i: nat, k: nat, j: nat)
    requires WellFormed(ns, -1) && i < |ns| && ns[i].isSplit && k <= 8 && j < |ns|
    ensures multiset(KidsUpTo(ns, i, k))[j] == if Under(ns, i, j, k) then 1 else 0
    decreases |ns| - i, 0, k
  {
    if k == 0 {
      if j != i && Desc(ns, i, j) {
        var b := Branch(ns, i, j);
        assert b >= FirstChildIndex(ns, i);
      }
    } else {
      KidsCount(ns, i, k - 1, j);
      PreOrderCount(ns, Child(ns, i, k - 1), j);
      KidsMultiset(ns, i, k, j);
      KidsStep(ns, i, k, j);
    }
  }

  lemma KidsMultiset(ns: seq<Node>, i: nat, k: nat, j: nat)
    requires WellFormed(ns, -1) && i < |ns| && ns[i].isSplit && 0 < k <= 8
    ensures multiset(KidsUpTo(ns, i, k))[j] ==
      multiset(KidsUpTo(ns, i, k - 1))[j] + multiset(PreOrder(ns, Child(ns, i, k - 1)))[j]
  {
    var a := KidsUpTo(ns, i, k - 1);
    var p := PreOrder(ns, Child(ns, i, k - 1));
    assert KidsUpTo(ns, i, k) == a + p;
    assert multiset(a + p) == multiset(a) + multiset(p);
  }

  /** The nodes below the first k children are those below the first k - 1
      and those below child k - 1, which are disjoint. */
  lemma KidsStep(ns: seq<Node>, i: nat, k: nat, j: nat)
    requires WellFormed(ns, -1) && i < |ns| && ns[i].isSplit && 0 < k <= 8 && j < |ns|
    ensures Under(ns, i, j, k) <==> Under(ns, i, j, k - 1) || Desc(ns, Child(ns, i, k - 1), j)
    ensures !(Under(ns, i, j, k - 1) && Desc(ns, Child(ns, i, k - 1), j))
  {
    ChildParent(ns, i, k - 1);
    DescChild(ns, i, Child(ns, i, k - 1), j);
  }

  /** The indices 0, 1, ..., n - 1 from m on: [m, m + 1, ..., n - 1]. */
  function Range(m: nat, n: nat): (r: seq<nat>)
    requires m <= n
    ensures |r| == n - m
    ensures forall x :: x in r ==> m <= x < n
    decreases n - m
  {
    if m == n then [] else [m] + Range(m + 1, n)
  }

  lemma {:induction false} RangeCount(m: nat, n: nat, j: nat)
    requires m <= n
    ensures multiset(Range(m, n))[j] == if m <= j < n then 1 else 0
    decreases n - m
  {
    if m < n {
      RangeCount(m + 1, n, j);
      ConsCount(m, Range(m + 1, n), j);
    }
  }

  lemma ConsCount(x: nat, s: seq<nat>, j: nat)
    ensures multiset([x] + s)[j] == (if j == x then 1 else 0) + multiset(s)[j]
  {
    assert multiset([x] + s) == multiset{x} + multiset(s);
  }

  /** The walk from the root is a permutation of all the arena's nodes. */
  lemma PreOrderAll(ns: seq<Node>)
    requires WellFormed(ns, -1)
    ensures multiset(PreOrder(ns, 0)) == multiset(Range(0, |ns|))
    ensures |PreOrder(ns, 0)| == |ns|
  {
    forall j: nat ensures multiset(PreOrder(ns, 0))[j] == multiset(Range(0, |ns|))[j] {
      RangeCount(0, |ns|, j);
      if j < |ns| {
        PreOrderCount(ns, 0, j);
        RootDesc(ns, j);
      } else {
        assert j !in PreOrder(ns, 0);
      }
    }
  }

}
