/** The octree's nodes as an arena: node i of the tree is `ns[i]`, the root
    is `ns[0]`, and every pointer (first child, next sibling, parent) is an
    arena index. A subdivision appends its eight children at consecutive
    indices, so the children of a split node with first child c are
    c, c + 1, ..., c + 7 and the sibling chain links them in that order.

    This module states the shape invariant of such a tree and the effect of
    the source's node operations (Add, Subdivide, Rebalance, one insertion
    step) as functions on arenas, with the lemmas that the operations keep
    the invariant, keep every stored voxel, and add eight nodes per split. */
module NodeArena {
  import opened Voxels
  import opened OctreeNodes

  // ---------------------------------------------------------------------
  // Shape

  /** What subdivision fixes about child k of node p, whose children start
      at c: its box, its parent, its place in the sibling chain and its
      location code. Its objects, split flag and first child evolve later. */
  ghost predicate IsChild(parentNode: Node, p: nat, c: nat, k: nat, child: Node)
    requires k < 8
  {
    && child.center == ChildCenter(parentNode, k)
    && child.halfsize == Half(parentNode.halfsize)
    && child.parent == Ref(p)
    && child.nextSibling == (if k < 7 then Ref(c + k + 1) else Null)
    && child.loc == ChildLoc(k)
    && !child.isRoot
  }

  /** Node i is split and its eight children follow it in the arena. */
  ghost predicate SplitOk(ns: seq<Node>, i: nat)
    requires i < |ns|
  {
    var f := ns[i].firstChild;
    && f.Ref?
    && i < f.index
    && f.index + 8 <= |ns|
    && forall j :: f.index <= j < f.index + 8 ==> IsChild(ns[i], i, f.index, j - f.index, ns[j])
  }

  /** Node i (not the root) is one of the eight children of its parent. */
  ghost predicate HasParent(ns: seq<Node>, i: nat)
    requires i < |ns|
  {
    var p := ns[i].parent;
    && p.Ref?
    && p.index < i
    && ns[p.index].isSplit
    && ns[p.index].firstChild.Ref?
    && ns[p.index].firstChild.index <= i < ns[p.index].firstChild.index + 8
  }

  /** The shape invariant at node i. `pending` names the one split node that
      may still hold objects (between Subdivide and Rebalance); -1 for none. */
  ghost predicate NodeOk(ns: seq<Node>, i: nat, pending: int)
    requires i < |ns|
  {
    var n := ns[i];
    && (n.isRoot <==> i == 0)
    && (i == 0 ==> n.parent == Null && n.nextSibling == Null)
    && (i > 0 ==> HasParent(ns, i))
    && (n.isSplit ==> SplitOk(ns, i) && (i != pending ==> n.objects == []))
    && (!n.isSplit ==> n.firstChild == Null)
  }

  ghost predicate WellFormed(ns: seq<Node>, pending: int)
  {
    && |ns| > 0
    && forall i :: 0 <= i < |ns| ==> NodeOk(ns, i, pending)
  }

  /** The invariant at one node of a well-formed arena. */
  lemma NodeAt(ns: seq<Node>, i: nat, pending: int)
    requires WellFormed(ns, pending) && i < |ns|
    ensures NodeOk(ns, i, pending)
  {
  }

  /** Every stored object names a voxel of the array. */
  ghost predicate Stored(ns: seq<Node>, numVoxels: nat)
  {
    forall i :: 0 <= i < |ns| ==> Below(ns[i].objects, numVoxels)
  }

  /** Every stored voxel lies inside the box of the node that stores it. */
  ghost predicate Contained(ns: seq<Node>, voxels: seq<Voxel>)
  {
    forall i, o :: 0 <= i < |ns| && o in ns[i].objects && o < |voxels| ==> ns[i].Contains(Position(voxels[o]))
  }

  /** The boxes of the first |ns| nodes are the same in `ns'`. */
  ghost predicate SameBoxes(ns: seq<Node>, ns': seq<Node>)
  {
    && |ns| <= |ns'|
    && forall j :: 0 <= j < |ns| ==> ns'[j].center == ns[j].center && ns'[j].halfsize == ns[j].halfsize
  }

  // ---------------------------------------------------------------------
  // Counting

  /** The number of split nodes. */
  function SplitCount(ns: seq<Node>): nat
  {
    if ns == [] then 0 else (if ns[0].isSplit then 1 else 0) + SplitCount(ns[1..])
  }

  /** All stored objects, with multiplicity. */
  function Objs(ns: seq<Node>): multiset<nat>
  {
    if ns == [] then multiset{} else multiset(ns[0].objects) + Objs(ns[1..])
  }

  lemma {:induction false} SplitCountAppend(a: seq<Node>, b: seq<Node>)
    ensures SplitCount(a + b) == SplitCount(a) + SplitCount(b)
  {
    if a == [] {
      assert a + b == b;
    } else {
      assert (a + b)[1..] == a[1..] + b;
      SplitCountAppend(a[1..], b);
    }
  }

  lemma {:induction false} ObjsAppend(a: seq<Node>, b: seq<Node>)
    ensures Objs(a + b) == Objs(a) + Objs(b)
  {
    if a == [] {
      assert a + b == b;
    } else {
      assert (a + b)[1..] == a[1..] + b;
      ObjsAppend(a[1..], b);
    }
  }

  /** Replacing one node changes the counts by that node only. */
  lemma UpdateCounts(ns: seq<Node>, i: nat, n: Node)
    requires i < |ns|
    ensures SplitCount(ns[i := n]) + (if ns[i].isSplit then 1 else 0) == SplitCount(ns) + (if n.isSplit then 1 else 0)
    ensures Objs(ns[i := n]) + multiset(ns[i].objects) == Objs(ns) + multiset(n.objects)
  {
    assert ns == ns[..i] + [ns[i]] + ns[i + 1..];
    assert ns[i := n] == ns[..i] + [n] + ns[i + 1..];
    SplitCountAppend(ns[..i] + [ns[i]], ns[i + 1..]);
    SplitCountAppend(ns[..i], [ns[i]]);
    SplitCountAppend(ns[..i] + [n], ns[i + 1..]);
    SplitCountAppend(ns[..i], [n]);
    ObjsAppend(ns[..i] + [ns[i]], ns[i + 1..]);
    ObjsAppend(ns[..i], [ns[i]]);
    ObjsAppend(ns[..i] + [n], ns[i + 1..]);
    ObjsAppend(ns[..i], [n]);
    assert [ns[i]][1..] == [] && [n][1..] == [];
  }

  lemma MultisetCancel(a: multiset<nat>, b: multiset<nat>, m: multiset<nat>)
    requires a + m == b + m
    ensures a == b
  {
    forall x ensures a[x] == b[x] {
      assert (a + m)[x] == (b + m)[x];
    }
  }

  /** An object stored at some node is counted in Objs. */
  lemma {:induction false} ObjsHolds(ns: seq<Node>, i: nat, o: nat)
    requires i < |ns| && o in ns[i].objects
    ensures Objs(ns)[o] >= 1
  {
    if i > 0 {
      assert ns[i] == ns[1..][i - 1];
      ObjsHolds(ns[1..], i - 1, o);
    }
  }

  /** An object stored at two nodes is counted twice. */
  lemma {:induction false} ObjsHoldsTwo(ns: seq<Node>, i: nat, j: nat, o: nat)
    requires i < j < |ns| && o in ns[i].objects && o in ns[j].objects
    ensures Objs(ns)[o] >= 2
  {
    assert ns[j] == ns[1..][j - 1];
    if i > 0 {
      assert ns[i] == ns[1..][i - 1];
      ObjsHoldsTwo(ns[1..], i - 1, j - 1, o);
    } else {
      ObjsHolds(ns[1..], j - 1, o);
    }
  }

  /** A node that holds an object with count one holds it once. */
  lemma {:induction false} HolderExists(ns: seq<Node>, o: nat)
    requires Objs(ns)[o] == 1
    ensures exists i :: 0 <= i < |ns| && multiset(ns[i].objects)[o] == 1
  {
    var m := multiset(ns[0].objects)[o];
    if m == 0 {
      HolderExists(ns[1..], o);
      var i :| 0 <= i < |ns[1..]| && multiset(ns[1..][i].objects)[o] == 1;
      assert multiset(ns[i + 1].objects)[o] == 1;
    }
  }

  /** A multiset count of one means exactly one node holds the object, and
      holds it once; a count of zero means no node holds it. */
  lemma HolderOfCount(ns: seq<Node>, o: nat)
    ensures Objs(ns)[o] == 0 ==> forall i :: 0 <= i < |ns| ==> o !in ns[i].objects
    ensures Objs(ns)[o] == 1 ==> exists i :: 0 <= i < |ns| && multiset(ns[i].objects)[o] == 1
    ensures Objs(ns)[o] == 1 ==> forall i, i' :: 0 <= i < |ns| && 0 <= i' < |ns| && o in ns[i].objects && o in ns[i'].objects ==> i == i'
  {
    forall i | 0 <= i < |ns| && o in ns[i].objects ensures Objs(ns)[o] >= 1 {
      ObjsHolds(ns, i, o);
    }
    forall i, i' | 0 <= i < |ns| && 0 <= i' < |ns| && o in ns[i].objects && o in ns[i'].objects && i < i'
      ensures Objs(ns)[o] >= 2
    {
      ObjsHoldsTwo(ns, i, i', o);
    }
    if Objs(ns)[o] == 1 {
      HolderExists(ns, o);
    }
  }

  // ---------------------------------------------------------------------
  // Node operations

  /** `Add`: append one object to node l's list. */
  function Added(ns: seq<Node>, l: nat, o: nat): (r: seq<Node>)
    requires l < |ns|
  {
    ns[l := ns[l].(objects := ns[l].objects + [o])]
  }

  /** Child k of node p (whose children start at c) as subdivision creates it. */
  function ChildNode(parentNode: Node, p: nat, c: nat, k: nat): Node
    requires k < 8
  {
    NewNode(ChildCenter(parentNode, k), Half(parentNode.halfsize), Ref(p), ChildLoc(k))
      .(nextSibling := if k < 7 then Ref(c + k + 1) else Null)
  }

  /** `Subdivide`: eight new leaves appended after the arena, linked from l. */
  function Subdivided(ns: seq<Node>, l: nat): (r: seq<Node>)
    requires l < |ns|
  {
    ns[l := ns[l].(firstChild := Ref(|ns|), isSplit := true)]
      + seq(8, k requires 0 <= k < 8 => ChildNode(ns[l], l, |ns|, k))
  }

  /** Every element of `objs` is below n. */
  predicate Below(objs: seq<nat>, n: nat)
  {
    forall k :: 0 <= k < |objs| ==> objs[k] < n
  }

  /** The objects of `objs` whose octant code at node `at` is k, in list order. */
  function Route(at: Node, voxels: seq<Voxel>, objs: seq<nat>, k: nat): (r: seq<nat>)
    requires Below(objs, |voxels|)
  {
    if objs == [] then []
    else
      var o := objs[|objs| - 1];
      Route(at, voxels, objs[..|objs| - 1], k) + (if at.BestIdx(Position(voxels[o])) == k then [o] else [])
  }

  /** `Rebalance`'s loop: each object of `objs`, in order, is appended to the
      child of node i that its octant code selects. */
  function Distribute(ns: seq<Node>, i: nat, voxels: seq<Voxel>, objs: seq<nat>): (r: seq<Node>)
    requires i < |ns| && ns[i].firstChild.Ref? && ns[i].firstChild.index + 8 <= |ns|
    requires Below(objs, |voxels|)
    ensures |r| == |ns|
  {
    if objs == [] then ns
    else
      var o := objs[|objs| - 1];
      var d := Distribute(ns, i, voxels, objs[..|objs| - 1]);
      var j := ns[i].firstChild.index + ns[i].BestIdx(Position(voxels[o]));
      d[j := d[j].(objects := d[j].objects + [o])]
  }

  /** `Rebalance`: distribute node i's objects to its children, then clear its list. */
  function Rebalanced(ns: seq<Node>, i: nat, voxels: seq<Voxel>): (r: seq<Node>)
    requires i < |ns| && ns[i].firstChild.Ref? && ns[i].firstChild.index + 8 <= |ns|
    requires Below(ns[i].objects, |voxels|)
  {
    var d := Distribute(ns, i, voxels, ns[i].objects);
    d[i := d[i].(objects := [])]
  }

  /** One insertion into leaf l: append, and subdivide and rebalance when the
      list has grown beyond the capacity. */
  function Insert(ns: seq<Node>, voxels: seq<Voxel>, l: nat, o: nat, maxPerCell: nat): (r: seq<Node>)
    requires l < |ns| && Stored(ns, |voxels|) && o < |voxels|
  {
    var a := Added(ns, l, o);
    if Overflows(ns[l], maxPerCell) then
      assert Below(a[l].objects, |voxels|) by { assert Below(ns[l].objects, |voxels|); }
      Rebalanced(Subdivided(a, l), l, voxels)
    else a
  }

  /** Whether appending one more object to the list of `n` takes it beyond
      the capacity. */
  predicate Overflows(n: Node, maxPerCell: nat)
  {
    |n.objects| + 1 > maxPerCell
  }

  // ---------------------------------------------------------------------
  // Lemmas on the operations

  lemma {:induction false} RouteMembers(at: Node, voxels: seq<Voxel>, objs: seq<nat>, k: nat, x: nat)
    requires Below(objs, |voxels|)
    ensures x in Route(at, voxels, objs, k) <==> x in objs && x < |voxels| && at.BestIdx(Position(voxels[x])) == k
  {
    if objs != [] {
      var init := objs[..|objs| - 1];
      assert objs == init + [objs[|objs| - 1]];
      RouteMembers(at, voxels, init, k, x);
    }
  }

  lemma {:induction false} RouteBelow(at: Node, voxels: seq<Voxel>, objs: seq<nat>, k: nat)
    requires Below(objs, |voxels|)
    ensures Below(Route(at, voxels, objs, k), |voxels|)
  {
    if objs != [] {
      RouteBelow(at, voxels, objs[..|objs| - 1], k);
    }
  }

  /** The child slots of a Distribute are the children's old lists followed
      by the routed objects; every other node is unchanged. */
  lemma {:induction false} DistributeAt(ns: seq<Node>, i: nat, voxels: seq<Voxel>, objs: seq<nat>, j: nat)
    requires i < |ns| && ns[i].firstChild.Ref? && ns[i].firstChild.index + 8 <= |ns|
    requires Below(objs, |voxels|)
    requires j < |ns|
    ensures var c := ns[i].firstChild.index;
      Distribute(ns, i, voxels, objs)[j] ==
        if c <= j < c + 8 then ns[j].(objects := ns[j].objects + Route(ns[i], voxels, objs, j - c)) else ns[j]
  {
    if objs != [] {
      DistributeAt(ns, i, voxels, objs[..|objs| - 1], j);
    }
  }

  /** Distribute keeps every object: the objects moved are added to the tree. */
  lemma {:induction false} DistributeObjs(ns: seq<Node>, i: nat, voxels: seq<Voxel>, objs: seq<nat>)
    requires i < |ns| && ns[i].firstChild.Ref? && ns[i].firstChild.index + 8 <= |ns|
    requires Below(objs, |voxels|)
    ensures Objs(Distribute(ns, i, voxels, objs)) == Objs(ns) + multiset(objs)
    ensures SplitCount(Distribute(ns, i, voxels, objs)) == SplitCount(ns)
  {
    if objs != [] {
      var init := objs[..|objs| - 1];
      var o := objs[|objs| - 1];
      assert objs == init + [o];
      DistributeObjs(ns, i, voxels, init);
      var d := Distribute(ns, i, voxels, init);
      var j := ns[i].firstChild.index + ns[i].BestIdx(Position(voxels[o]));
      AppendedCounts(d, j, o);
      assert multiset(objs) == multiset(init) + multiset{o};
    }
  }

  /** Appending one object to a node's list adds it to the tree's objects. */
  lemma AppendedCounts(d: seq<Node>, j: nat, o: nat)
    requires j < |d|
    ensures var r := d[j := d[j].(objects := d[j].objects + [o])];
      Objs(r) == Objs(d) + multiset{o} && SplitCount(r) == SplitCount(d)
  {
    var n := d[j].(objects := d[j].objects + [o]);
    UpdateCounts(d, j, n);
    MultisetCancel(Objs(d[j := n]), Objs(d) + multiset{o}, multiset(d[j].objects));
  }

  lemma KidsCounts(kids: seq<Node>)
    requires forall j :: 0 <= j < |kids| ==> kids[j].objects == [] && !kids[j].isSplit
    ensures SplitCount(kids) == 0 && Objs(kids) == multiset{}
  {
    if kids != [] {
      assert forall j :: 0 <= j < |kids[1..]| ==> kids[1..][j] == kids[j + 1];
      KidsCounts(kids[1..]);
    }
  }

  /** A node without its object list: everything the shape invariant reads. */
  function Skeleton(n: Node): Node
  {
    n.(objects := [])
  }

  /** Two arenas that differ only in object lists. */
  ghost predicate SameSkeletons(ns: seq<Node>, ns': seq<Node>)
  {
    && |ns| == |ns'|
    && forall j :: 0 <= j < |ns| ==> Skeleton(ns'[j]) == Skeleton(ns[j])
  }

  /** Changing object lists only keeps the shape, as long as no split node
      other than the pending one holds objects. */
  lemma SkeletonShape(ns: seq<Node>, ns': seq<Node>, pending: int, pending': int)
    requires WellFormed(ns, pending) && SameSkeletons(ns, ns')
    requires forall j :: 0 <= j < |ns'| && ns'[j].isSplit && j != pending' ==> ns'[j].objects == []
    ensures WellFormed(ns', pending')
  {
    forall j | 0 <= j < |ns'| ensures NodeOk(ns', j, pending') {
      SkeletonNodeOk(ns, ns', j, pending, pending');
    }
  }

  lemma SkeletonNodeOk(ns: seq<Node>, ns': seq<Node>, j: nat, pending: int, pending': int)
    requires WellFormed(ns, pending) && SameSkeletons(ns, ns') && j < |ns|
    requires ns'[j].isSplit && j != pending' ==> ns'[j].objects == []
    ensures NodeOk(ns', j, pending')
  {
    NodeAt(ns, j, pending);
    assert Skeleton(ns'[j]) == Skeleton(ns[j]);
    if j > 0 {
      var p := ns[j].parent.index;
      assert Skeleton(ns'[p]) == Skeleton(ns[p]);
    }
    if ns[j].isSplit {
      var f := ns[j].firstChild.index;
      forall m | f <= m < f + 8 ensures IsChild(ns'[j], j, f, m - f, ns'[m]) {
        assert IsChild(ns[j], j, f, m - f, ns[m]);
        assert Skeleton(ns'[m]) == Skeleton(ns[m]);
      }
    }
  }

  /** The nodes of a subdivided arena: node l is now split with first child
      |ns|, the other old nodes are unchanged, the new ones are the children. */
  lemma SubdividedAt(ns: seq<Node>, l: nat, j: nat)
    requires l < |ns| && j < |ns| + 8
    ensures |Subdivided(ns, l)| == |ns| + 8
    ensures Subdivided(ns, l)[j] ==
      if j == l then ns[l].(firstChild := Ref(|ns|), isSplit := true)
      else if j < |ns| then ns[j]
      else ChildNode(ns[l], l, |ns|, j - |ns|)
  {
  }

  /** The children that Subdivide creates are children of l. */
  lemma SubdivideKid(ns: seq<Node>, l: nat, j: nat)
    requires l < |ns| && |ns| <= j < |ns| + 8
    ensures IsChild(Subdivided(ns, l)[l], l, |ns|, j - |ns|, Subdivided(ns, l)[j])
  {
    SubdividedAt(ns, l, l);
    SubdividedAt(ns, l, j);
  }

  /** The location codes Subdivide stores do not tell the children apart:
      the first two children of every subdivision both get code 0, and only
      the first child's code is its sibling position. */
  lemma SubdivideLocsCollide(ns: seq<Node>, l: nat)
    requires l < |ns|
    ensures |Subdivided(ns, l)| == |ns| + 8
    ensures Subdivided(ns, l)[|ns|].loc == Subdivided(ns, l)[|ns| + 1].loc == 0
    ensures forall j :: |ns| < j < |ns| + 8 ==> Subdivided(ns, l)[j].loc != j - |ns|
  {
    SubdividedAt(ns, l, |ns|);
    SubdividedAt(ns, l, |ns| + 1);
    forall j | |ns| < j < |ns| + 8 ensures Subdivided(ns, l)[j].loc != j - |ns| {
      SubdividedAt(ns, l, j);
      var k := j - |ns|;
      assert k == 1 || k == 2 || k == 3 || k == 4 || k == 5 || k == 6 || k == 7;
    }
  }

  /** A node that existed before Subdivide keeps its invariant in the result. */
  lemma SubdivideOldNode(ns: seq<Node>, l: nat, i: nat)
    requires WellFormed(ns, -1) && l < |ns| && !ns[l].isSplit && i < |ns|
    ensures NodeOk(Subdivided(ns, l), i, l)
  {
    NodeAt(ns, i, -1);
    SubdividedAt(ns, l, i);
    if i == l {
      SubdivideSplitOk(ns, l);
    } else {
      if i > 0 {
        SubdivideParent(ns, l, i);
      }
      if ns[i].isSplit {
        SubdivideOtherSplit(ns, l, i);
      }
    }
  }

  /** The subdivided node is split, with its new children after it. */
  lemma SubdivideSplitOk(ns: seq<Node>, l: nat)
    requires l < |ns|
    ensures SplitOk(Subdivided(ns, l), l)
  {
    var s := Subdivided(ns, l);
    var c := |ns|;
    SubdividedAt(ns, l, l);
    forall j | c <= j < c + 8 ensures IsChild(s[l], l, c, j - c, s[j]) {
      SubdivideKid(ns, l, j);
    }
  }

  /** Any other node keeps its parent link, and its parent is still split. */
  lemma SubdivideParent(ns: seq<Node>, l: nat, i: nat)
    requires l < |ns| && !ns[l].isSplit && 0 < i < |ns| && i != l && HasParent(ns, i)
    ensures HasParent(Subdivided(ns, l), i)
  {
    var p := ns[i].parent.index;
    SubdividedAt(ns, l, i);
    SubdividedAt(ns, l, p);
  }

  /** A node split before Subdivide keeps its children. */
  lemma SubdivideOtherSplit(ns: seq<Node>, l: nat, i: nat)
    requires l < |ns| && !ns[l].isSplit && i < |ns| && i != l && SplitOk(ns, i)
    ensures SplitOk(Subdivided(ns, l), i)
  {
    var s := Subdivided(ns, l);
    var f := ns[i].firstChild.index;
    SubdividedAt(ns, l, i);
    forall j | f <= j < f + 8 ensures IsChild(s[i], i, f, j - f, s[j]) {
      assert IsChild(ns[i], i, f, j - f, ns[j]);
      SubdividedAt(ns, l, j);
    }
  }

  /** Subdivide keeps every stored voxel in its node's box. */
  lemma SubdivideContained(ns: seq<Node>, l: nat, voxels: seq<Voxel>)
    requires l < |ns| && Contained(ns, voxels)
    ensures Contained(Subdivided(ns, l), voxels)
  {
    var s := Subdivided(ns, l);
    forall i, x | 0 <= i < |s| && x in s[i].objects && x < |voxels| ensures s[i].Contains(Position(voxels[x])) {
      SubdividedAt(ns, l, i);
    }
  }

  /** A node that Subdivide creates satisfies the invariant. */
  lemma SubdivideNewNode(ns: seq<Node>, l: nat, i: nat)
    requires WellFormed(ns, -1) && l < |ns| && !ns[l].isSplit && |ns| <= i < |ns| + 8
    ensures NodeOk(Subdivided(ns, l), i, l)
  {
    var s := Subdivided(ns, l);
    assert s[i] == ChildNode(ns[l], l, |ns|, i - |ns|);
  }

  /** Subdivide keeps the shape, with l as the pending node, adds eight
      childless, empty leaves, and changes no other node. */
  lemma SubdivideShape(ns: seq<Node>, l: nat)
    requires WellFormed(ns, -1) && l < |ns| && !ns[l].isSplit
    ensures var s := Subdivided(ns, l);
      && WellFormed(s, l)
      && |s| == |ns| + 8
      && s[l].isSplit && s[l].firstChild == Ref(|ns|) && s[l].objects == ns[l].objects
      && SplitOk(s, l)
      && (forall j :: 0 <= j < |ns| && j != l ==> s[j] == ns[j])
      && (forall j :: |ns| <= j < |s| ==> s[j].objects == [] && !s[j].isSplit)
      && SameBoxes(ns, s)
  {
    var s := Subdivided(ns, l);
    forall i | 0 <= i < |s| ensures NodeOk(s, i, l) {
      if i < |ns| {
        SubdivideOldNode(ns, l, i);
      } else {
        SubdivideNewNode(ns, l, i);
      }
    }
    assert NodeOk(s, l, l);
  }

  /** Subdivide adds one split node and stores no new object. */
  lemma SubdivideCounts(ns: seq<Node>, l: nat)
    requires l < |ns| && !ns[l].isSplit
    ensures SplitCount(Subdivided(ns, l)) == SplitCount(ns) + 1
    ensures Objs(Subdivided(ns, l)) == Objs(ns)
  {
    var c := |ns|;
    var kids := seq(8, k requires 0 <= k < 8 => ChildNode(ns[l], l, c, k));
    var n := ns[l].(firstChild := Ref(c), isSplit := true);
    var u := ns[l := n];
    assert Subdivided(ns, l) == u + kids;
    UpdateCounts(ns, l, n);
    MultisetCancel(Objs(u), Objs(ns), multiset(ns[l].objects));
    SplitCountAppend(u, kids);
    ObjsAppend(u, kids);
    KidsCounts(kids);
  }

  /** Routing one more object appends it to the list of the child it selects. */
  lemma DistributeStep(ns: seq<Node>, i: nat, voxels: seq<Voxel>, objs: seq<nat>, j: nat, t: nat)
    requires i < |ns| && ns[i].firstChild.Ref? && ns[i].firstChild.index + 8 <= |ns|
    requires Below(objs, |voxels|) && j < |objs|
    requires t == ns[i].firstChild.index + ns[i].BestIdx(Position(voxels[objs[j]]))
    ensures var d := Distribute(ns, i, voxels, objs[..j]);
      Distribute(ns, i, voxels, objs[..j + 1]) == d[t := d[t].(objects := d[t].objects + [objs[j]])]
  {
    assert objs[..j + 1][..j] == objs[..j];
  }

  /** Distribute changes object lists only, and only those of the children. */
  lemma DistributeSkeleton(ns: seq<Node>, i: nat, voxels: seq<Voxel>, objs: seq<nat>)
    requires i < |ns| && ns[i].firstChild.Ref? && ns[i].firstChild.index + 8 <= |ns|
    requires Below(objs, |voxels|)
    ensures SameSkeletons(ns, Distribute(ns, i, voxels, objs))
  {
    forall j | 0 <= j < |ns| ensures Skeleton(Distribute(ns, i, voxels, objs)[j]) == Skeleton(ns[j]) {
      DistributeAt(ns, i, voxels, objs, j);
    }
  }

  /** The list of each node after Rebalance: a child gains the objects routed
      to it, node i is emptied, every other node is unchanged. */
  lemma RebalanceAt(ns: seq<Node>, i: nat, voxels: seq<Voxel>, j: nat)
    requires i < |ns| && ns[i].firstChild.Ref? && ns[i].firstChild.index + 8 <= |ns|
    requires i < ns[i].firstChild.index
    requires Below(ns[i].objects, |voxels|)
    requires j < |ns|
    ensures var c := ns[i].firstChild.index;
      && |Rebalanced(ns, i, voxels)| == |ns|
      && Rebalanced(ns, i, voxels)[j] ==
        if c <= j < c + 8 then ns[j].(objects := ns[j].objects + Route(ns[i], voxels, ns[i].objects, j - c))
        else if j == i then ns[i].(objects := [])
        else ns[j]
  {
    DistributeAt(ns, i, voxels, ns[i].objects, j);
    DistributeAt(ns, i, voxels, ns[i].objects, i);
  }

  /** Rebalance on the node just subdivided restores the full shape, keeps
      every object and every box, and splits nothing. */
  lemma RebalanceShape(ns: seq<Node>, i: nat, voxels: seq<Voxel>)
    requires WellFormed(ns, i) && i < |ns| && ns[i].isSplit && SplitOk(ns, i)
    requires forall j :: ns[i].firstChild.index <= j < ns[i].firstChild.index + 8 ==> !ns[j].isSplit
    requires Below(ns[i].objects, |voxels|)
    ensures var r := Rebalanced(ns, i, voxels);
      && WellFormed(r, -1)
      && |r| == |ns|
      && SameSkeletons(ns, r)
  {
    var r := Rebalanced(ns, i, voxels);
    forall j | 0 <= j < |ns| ensures Skeleton(r[j]) == Skeleton(ns[j]) && (r[j].isSplit ==> r[j].objects == []) {
      RebalanceAt(ns, i, voxels, j);
      NodeAt(ns, j, i);
    }
    SkeletonShape(ns, r, i, -1);
  }

  /** Rebalance keeps every object and splits nothing. */
  lemma RebalanceCounts(ns: seq<Node>, i: nat, voxels: seq<Voxel>)
    requires i < |ns| && ns[i].firstChild.Ref? && ns[i].firstChild.index + 8 <= |ns|
    requires i < ns[i].firstChild.index
    requires Below(ns[i].objects, |voxels|)
    ensures Objs(Rebalanced(ns, i, voxels)) == Objs(ns)
    ensures SplitCount(Rebalanced(ns, i, voxels)) == SplitCount(ns)
  {
    var d := Distribute(ns, i, voxels, ns[i].objects);
    DistributeAt(ns, i, voxels, ns[i].objects, i);
    DistributeObjs(ns, i, voxels, ns[i].objects);
    UpdateCounts(d, i, d[i].(objects := []));
    MultisetCancel(Objs(Rebalanced(ns, i, voxels)), Objs(ns), multiset(ns[i].objects));
  }

  /** Add keeps the shape: only a leaf's list changes. */
  lemma AddedShape(ns: seq<Node>, l: nat, o: nat)
    requires WellFormed(ns, -1) && l < |ns| && !ns[l].isSplit
    ensures WellFormed(Added(ns, l, o), -1)
    ensures Objs(Added(ns, l, o)) == Objs(ns) + multiset{o}
    ensures SplitCount(Added(ns, l, o)) == SplitCount(ns)
  {
    var a := Added(ns, l, o);
    forall j | 0 <= j < |ns| ensures Skeleton(a[j]) == Skeleton(ns[j]) && (a[j].isSplit ==> a[j].objects == []) {
      NodeAt(ns, j, -1);
    }
    SkeletonShape(ns, a, -1, -1);
    UpdateCounts(ns, l, a[l]);
    MultisetCancel(Objs(a), Objs(ns) + multiset{o}, multiset(ns[l].objects));
  }

  /** Subdividing a leaf and rebalancing it: the tree keeps its shape and its
      objects, gains eight nodes and one split node, and only the leaf
      changes among the old nodes. */
  lemma SplitLeaf(ns: seq<Node>, l: nat, voxels: seq<Voxel>)
    requires WellFormed(ns, -1) && l < |ns| && !ns[l].isSplit
    requires Below(ns[l].objects, |voxels|)
    ensures var r := Rebalanced(Subdivided(ns, l), l, voxels);
      && WellFormed(r, -1)
      && |r| == |ns| + 8
      && Objs(r) == Objs(ns)
      && SplitCount(r) == SplitCount(ns) + 1
      && SameBoxes(ns, r)
      && r[l].isSplit && r[l].objects == []
      && (forall j :: 0 <= j < |ns| && j != l ==> r[j] == ns[j])
  {
    SubdivideShape(ns, l);
    SubdivideCounts(ns, l);
    var s := Subdivided(ns, l);
    RebalanceShape(s, l, voxels);
    RebalanceCounts(s, l, voxels);
    var r := Rebalanced(s, l, voxels);
    forall j | 0 <= j < |ns| ensures r[j].center == ns[j].center && r[j].halfsize == ns[j].halfsize && (j != l ==> r[j] == ns[j]) {
      RebalanceAt(s, l, voxels, j);
    }
    RebalanceAt(s, l, voxels, l);
  }

  /** One insertion keeps the shape and stores the new object once more; it
      adds eight nodes and one split node exactly when the leaf overflows,
      and changes no node other than the leaf. */
  lemma InsertSpec(ns: seq<Node>, voxels: seq<Voxel>, l: nat, o: nat, maxPerCell: nat)
    requires WellFormed(ns, -1) && l < |ns| && !ns[l].isSplit
    requires Stored(ns, |voxels|) && o < |voxels|
    ensures var r := Insert(ns, voxels, l, o, maxPerCell);
      && WellFormed(r, -1)
      && Objs(r) == Objs(ns) + multiset{o}
      && |r| == |ns| + (if Overflows(ns[l], maxPerCell) then 8 else 0)
      && SplitCount(r) == SplitCount(ns) + (if Overflows(ns[l], maxPerCell) then 1 else 0)
      && SameBoxes(ns, r)
      && (forall j :: 0 <= j < |ns| && j != l ==> r[j] == ns[j])
      && (!Overflows(ns[l], maxPerCell) ==> r[l] == ns[l].(objects := ns[l].objects + [o]))
      && (Overflows(ns[l], maxPerCell) ==> r[l].isSplit && r[l].objects == [])
  {
    InsertShape(ns, voxels, l, o, maxPerCell);
    InsertFrame(ns, voxels, l, o, maxPerCell);
  }

  /** The counting half of InsertSpec. */
  lemma InsertShape(ns: seq<Node>, voxels: seq<Voxel>, l: nat, o: nat, maxPerCell: nat)
    requires WellFormed(ns, -1) && l < |ns| && !ns[l].isSplit
    requires Stored(ns, |voxels|) && o < |voxels|
    ensures var r := Insert(ns, voxels, l, o, maxPerCell);
      && WellFormed(r, -1)
      && Objs(r) == Objs(ns) + multiset{o}
      && |r| == |ns| + (if Overflows(ns[l], maxPerCell) then 8 else 0)
      && SplitCount(r) == SplitCount(ns) + (if Overflows(ns[l], maxPerCell) then 1 else 0)
  {
    var a := Added(ns, l, o);
    AddedShape(ns, l, o);
    if Overflows(ns[l], maxPerCell) {
      assert Below(a[l].objects, |voxels|) by { assert Below(ns[l].objects, |voxels|); }
      SplitLeaf(a, l, voxels);
    }
  }

  /** The framing half of InsertSpec: what happens to the leaf and to the
      other nodes. */
  lemma InsertFrame(ns: seq<Node>, voxels: seq<Voxel>, l: nat, o: nat, maxPerCell: nat)
    requires WellFormed(ns, -1) && l < |ns| && !ns[l].isSplit
    requires Stored(ns, |voxels|) && o < |voxels|
    ensures var r := Insert(ns, voxels, l, o, maxPerCell);
      && SameBoxes(ns, r)
      && (forall j :: 0 <= j < |ns| && j != l ==> r[j] == ns[j])
      && (!Overflows(ns[l], maxPerCell) ==> r[l] == ns[l].(objects := ns[l].objects + [o]))
      && (Overflows(ns[l], maxPerCell) ==> r[l].isSplit && r[l].objects == [])
  {
    var a := Added(ns, l, o);
    if Overflows(ns[l], maxPerCell) {
      assert Below(a[l].objects, |voxels|) by { assert Below(ns[l].objects, |voxels|); }
      SplitLeafFrame(a, l, voxels);
    }
  }

  /** Subdividing and rebalancing node l empties it, marks it split, keeps
      every old box and changes no other old node. */
  lemma SplitLeafFrame(ns: seq<Node>, l: nat, voxels: seq<Voxel>)
    requires l < |ns| && Below(ns[l].objects, |voxels|)
    ensures var r := Rebalanced(Subdivided(ns, l), l, voxels);
      && |r| == |ns| + 8
      && SameBoxes(ns, r)
      && r[l].isSplit && r[l].objects == []
      && (forall j :: 0 <= j < |ns| && j != l ==> r[j] == ns[j])
  {
    var s := Subdivided(ns, l);
    SubdividedAt(ns, l, l);
    var r := Rebalanced(s, l, voxels);
    forall j | 0 <= j < |ns| ensures r[j].center == ns[j].center && r[j].halfsize == ns[j].halfsize && (j != l ==> r[j] == ns[j]) {
      SubdividedAt(ns, l, j);
      RebalanceAt(s, l, voxels, j);
    }
    RebalanceAt(s, l, voxels, l);
  }

  /** One insertion keeps every stored object within the voxel array. */
  lemma InsertStored(ns: seq<Node>, voxels: seq<Voxel>, l: nat, o: nat, maxPerCell: nat)
    requires l < |ns| && Stored(ns, |voxels|) && o < |voxels|
    ensures Stored(Insert(ns, voxels, l, o, maxPerCell), |voxels|)
  {
    var a := Added(ns, l, o);
    assert Below(a[l].objects, |voxels|) by { assert Below(ns[l].objects, |voxels|); }
    assert Stored(a, |voxels|);
    if Overflows(ns[l], maxPerCell) {
      SplitStored(a, l, voxels);
    }
  }

  /** Splitting a leaf keeps every stored object within the voxel array. */
  lemma SplitStored(a: seq<Node>, l: nat, voxels: seq<Voxel>)
    requires l < |a| && Stored(a, |voxels|)
    ensures var s := Subdivided(a, l);
      s[l].firstChild.Ref? && s[l].firstChild.index + 8 <= |s| && Below(s[l].objects, |voxels|)
      && Stored(Rebalanced(s, l, voxels), |voxels|)
  {
    var s := Subdivided(a, l);
    SubdividedAt(a, l, l);
    assert Below(a[l].objects, |voxels|);
    var r := Rebalanced(s, l, voxels);
    forall i | 0 <= i < |r| ensures Below(r[i].objects, |voxels|) {
      SubdividedAt(a, l, i);
      RebalanceAt(s, l, voxels, i);
      if i >= |a| {
        RouteBelow(s[l], voxels, s[l].objects, i - |a|);
      } else {
        assert Below(a[i].objects, |voxels|);
      }
    }
  }

  /** Rebalance keeps every stored voxel inside its node's box when the
      children have the boxes subdivision gives them. */
  lemma RebalanceContained(ns: seq<Node>, i: nat, voxels: seq<Voxel>)
    requires i < |ns| && ns[i].firstChild.Ref? && ns[i].firstChild.index + 8 <= |ns|
    requires i < ns[i].firstChild.index
    requires Below(ns[i].objects, |voxels|) && Contained(ns, voxels)
    requires forall j :: ns[i].firstChild.index <= j < ns[i].firstChild.index + 8 ==>
      ns[j].center == ChildCenter(ns[i], j - ns[i].firstChild.index) && ns[j].halfsize == Half(ns[i].halfsize)
    ensures Contained(Rebalanced(ns, i, voxels), voxels)
  {
    var r := Rebalanced(ns, i, voxels);
    var c := ns[i].firstChild.index;
    forall j, x | 0 <= j < |r| && x in r[j].objects && x < |voxels| ensures r[j].Contains(Position(voxels[x])) {
      RebalanceAt(ns, i, voxels, j);
      if c <= j < c + 8 {
        RouteMembers(ns[i], voxels, ns[i].objects, j - c, x);
        if x !in ns[j].objects {
          ChildContains(ns[i], Position(voxels[x]), r[j]);
        }
      }
    }
  }

  /** Add keeps every stored voxel in its node's box when the new voxel lies
      inside node l. */
  lemma AddedContained(ns: seq<Node>, voxels: seq<Voxel>, l: nat, o: nat)
    requires l < |ns| && o < |voxels|
    requires Contained(ns, voxels) && ns[l].Contains(Position(voxels[o]))
    ensures Contained(Added(ns, l, o), voxels)
  {
    var a := Added(ns, l, o);
    forall i, x | 0 <= i < |a| && x in a[i].objects && x < |voxels| ensures a[i].Contains(Position(voxels[x])) {
      if i == l { assert x in ns[l].objects || x == o; }
    }
  }

  /** One insertion keeps every stored voxel inside its node's box, provided
      the new voxel lies inside the leaf. */
  lemma InsertContained(ns: seq<Node>, voxels: seq<Voxel>, l: nat, o: nat, maxPerCell: nat)
    requires WellFormed(ns, -1) && l < |ns| && !ns[l].isSplit
    requires Stored(ns, |voxels|) && o < |voxels|
    requires Contained(ns, voxels) && ns[l].Contains(Position(voxels[o]))
    ensures Contained(Insert(ns, voxels, l, o, maxPerCell), voxels)
  {
    var a := Added(ns, l, o);
    AddedContained(ns, voxels, l, o);
    if Overflows(ns[l], maxPerCell) {
      assert Below(a[l].objects, |voxels|) by { assert Below(ns[l].objects, |voxels|); }
      var s := Subdivided(a, l);
      var c := |a|;
      SubdividedAt(a, l, l);
      SubdivideContained(a, l, voxels);
      forall j | c <= j < c + 8 ensures s[j].center == ChildCenter(s[l], j - c) && s[j].halfsize == Half(s[l].halfsize) {
        SubdivideKid(a, l, j);
      }
      RebalanceContained(s, l, voxels);
    }
  }

  // ---------------------------------------------------------------------
  // Descent

  /** The leaf reached from node i by following the octant code of p at
      every split node. */
  ghost function Locate(ns: seq<Node>, i: nat, p: Vec3): (l: nat)
    requires WellFormed(ns, -1) && i < |ns|
    ensures i <= l < |ns| && !ns[l].isSplit
    decreases |ns| - i
  {
    NodeAt(ns, i, -1);
    if ns[i].isSplit then Locate(ns, ns[i].firstChild.index + ns[i].BestIdx(p), p) else i
  }

  /** Descent from a node that contains p ends at a leaf that contains p. */
  lemma {:induction false} LocateContains(ns: seq<Node>, i: nat, p: Vec3)
    requires WellFormed(ns, -1) && i < |ns| && ns[i].Contains(p)
    ensures ns[Locate(ns, i, p)].Contains(p)
    decreases |ns| - i
  {
    NodeAt(ns, i, -1);
    if ns[i].isSplit {
      var j := ns[i].firstChild.index + ns[i].BestIdx(p);
      assert IsChild(ns[i], i, ns[i].firstChild.index, j - ns[i].firstChild.index, ns[j]);
      ChildContains(ns[i], p, ns[j]);
      LocateContains(ns, j, p);
    }
  }
}
