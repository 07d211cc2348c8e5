/** The octree of the library: an arena of nodes grown from one root box,
    into which the voxels of an array are inserted one by one. A leaf whose
    list grows beyond the capacity is subdivided into eight children and its
    voxels are handed down to them. */
module Octrees {
  import opened Voxels
  import opened OctreeNodes
  import opened NodeArena

  /** The indices below n of the voxels that lie inside the root box, in
      array order: the voxels that Build inserts. */
  function InBound(root: Node, voxels: seq<Voxel>, n: nat): (r: seq<nat>)
    requires n <= |voxels|
  {
    if n == 0 then []
    else InBound(root, voxels, n - 1) + (if root.Contains(Position(voxels[n - 1])) then [n - 1] else [])
  }

  /** Each voxel inside the root box is inserted exactly once, the others never. */
  lemma {:induction false} InBoundCount(root: Node, voxels: seq<Voxel>, n: nat, o: nat)
    requires n <= |voxels|
    ensures multiset(InBound(root, voxels, n))[o] == if o < n && root.Contains(Position(voxels[o])) then 1 else 0
  {
    if n > 0 {
      InBoundCount(root, voxels, n - 1, o);
      var a := InBound(root, voxels, n - 1);
      var inside := root.Contains(Position(voxels[n - 1]));
      var last: seq<nat> := if inside then [n - 1] else [];
      assert InBound(root, voxels, n) == a + last;
      assert multiset(a + last) == multiset(a) + multiset(last);
      assert multiset(last)[o] == if o == n - 1 && inside then 1 else 0;
    }
  }

  /** A voxel counted once in a well-formed tree sits in exactly one node, a
      leaf, and that leaf's box contains it. */
  lemma PlacedOnce(ns: seq<Node>, voxels: seq<Voxel>, o: nat)
    requires WellFormed(ns, -1) && Contained(ns, voxels) && o < |voxels| && Objs(ns)[o] == 1
    ensures exists l :: 0 <= l < |ns| && !ns[l].isSplit && o in ns[l].objects && ns[l].Contains(Position(voxels[o]))
    ensures forall i, i' :: 0 <= i < |ns| && 0 <= i' < |ns| && o in ns[i].objects && o in ns[i'].objects ==> i == i'
  {
    HolderOfCount(ns, o);
    var l :| 0 <= l < |ns| && multiset(ns[l].objects)[o] == 1;
    assert o in ns[l].objects;
    NodeAt(ns, l, -1);
  }

  /** A voxel counted zero times is in no node. */
  lemma PlacedNowhere(ns: seq<Node>, o: nat)
    requires Objs(ns)[o] == 0
    ensures forall i :: 0 <= i < |ns| ==> o !in ns[i].objects
  {
    HolderOfCount(ns, o);
  }

  class Octree {
    var maxPerCell: nat
    var voxels: seq<Voxel>
    var numVoxels: nat
    var nodes: seq<Node>
    var numNodes: nat

    /** The tree's shape: a well-formed arena whose node counter is its size,
        one root plus eight nodes per split. */
    ghost predicate Valid()
      reads this
    {
      && WellFormed(nodes, -1)
      && numNodes == |nodes|
      && |nodes| == 1 + 8 * SplitCount(nodes)
    }

    /** The stored objects name voxels of the array, each inside its node's box. */
    ghost predicate Holds()
      reads this
    {
      Stored(nodes, |voxels|) && Contained(nodes, voxels)
    }

    /** A tree of one root leaf with the given box, holding nothing. */
    constructor (center: Vec3, halfsize: Vec3, maxPerCell: nat := 1000000)
      ensures Valid() && Holds()
      ensures nodes == [NewNode(center, halfsize, Null, 0).(isRoot := true)]
      ensures this.maxPerCell == maxPerCell && numNodes == 1
      ensures voxels == [] && numVoxels == 0
    {
      this.maxPerCell := maxPerCell;
      var root := NewNode(center, halfsize, Null, 0);
      root := root.(isRoot := true);
      nodes := [root];
      numNodes := 1;
      voxels := [];
      numVoxels := 0;
    }

    /** The node counter, which is the number of nodes. */
    function GetNumNodes(): (n: nat)
      requires Valid()
      reads this
      ensures n == |nodes| && n == 1 + 8 * SplitCount(nodes)
    {
      numNodes
    }

    /** Installs the voxel array. The stored objects stay as they are. */
    method SetVoxels(v: seq<Voxel>)
      modifies this
      ensures voxels == v
      ensures nodes == old(nodes) && numNodes == old(numNodes) && numVoxels == old(numVoxels) && maxPerCell == old(maxPerCell)
      ensures old(Valid()) ==> Valid()
      ensures Objs(nodes) == multiset{} ==> Holds()
    {
      voxels := v;
      if Objs(nodes) == multiset{} {
        forall i | 0 <= i < |nodes| ensures nodes[i].objects == [] {
          PlacedNowhereAll(nodes, i);
        }
      }
    }

    method SetNumVoxels(n: nat)
      modifies this
      ensures numVoxels == n
      ensures nodes == old(nodes) && numNodes == old(numNodes) && voxels == old(voxels) && maxPerCell == old(maxPerCell)
    {
      numVoxels := n;
    }

    /** `OctreeNode::Add` on node l. */
    method AddObject(l: nat, o: nat)
      requires l < |nodes|
      modifies this
      ensures nodes == Added(old(nodes), l, o)
      ensures numNodes == old(numNodes) && voxels == old(voxels) && numVoxels == old(numVoxels) && maxPerCell == old(maxPerCell)
    {
      nodes := nodes[l := nodes[l].(objects := nodes[l].objects + [o])];
    }

    /** `OctreeNode::Subdivide` on node l: eight children in the order lln,
        llf, lun, luf, rln, rlf, run, ruf, each a quarter-size box around a
        corner of the centre, linked in a sibling chain from l. */
    method SubdivideNode(l: nat)
      requires l < |nodes|
      modifies this
      ensures nodes == Subdivided(old(nodes), l)
      ensures numNodes == old(numNodes) && voxels == old(voxels) && numVoxels == old(numVoxels) && maxPerCell == old(maxPerCell)
    {
      var me := nodes[l];
      var q := Half(me.halfsize);
      var c := |nodes|;
      var ctr := me.center;
      var lln := NewNode(Vec3(ctr.x - q.x, ctr.y - q.y, ctr.z - q.z), q, Ref(l), ILocAsWritten(0, 0, 0) as nat);
      var llf := NewNode(Vec3(ctr.x - q.x, ctr.y - q.y, ctr.z + q.z), q, Ref(l), ILocAsWritten(0, 0, 1) as nat);
      var lun := NewNode(Vec3(ctr.x - q.x, ctr.y + q.y, ctr.z - q.z), q, Ref(l), ILocAsWritten(0, 1, 0) as nat);
      var luf := NewNode(Vec3(ctr.x - q.x, ctr.y + q.y, ctr.z + q.z), q, Ref(l), ILocAsWritten(0, 1, 1) as nat);
      var rln := NewNode(Vec3(ctr.x + q.x, ctr.y - q.y, ctr.z - q.z), q, Ref(l), ILocAsWritten(1, 0, 0) as nat);
      var rlf := NewNode(Vec3(ctr.x + q.x, ctr.y - q.y, ctr.z + q.z), q, Ref(l), ILocAsWritten(1, 0, 1) as nat);
      var run := NewNode(Vec3(ctr.x + q.x, ctr.y + q.y, ctr.z - q.z), q, Ref(l), ILocAsWritten(1, 1, 0) as nat);
      var ruf := NewNode(Vec3(ctr.x + q.x, ctr.y + q.y, ctr.z + q.z), q, Ref(l), ILocAsWritten(1, 1, 1) as nat);
      me := me.(firstChild := Ref(c));
      lln := lln.(nextSibling := Ref(c + 1));
      llf := llf.(nextSibling := Ref(c + 2));
      lun := lun.(nextSibling := Ref(c + 3));
      luf := luf.(nextSibling := Ref(c + 4));
      rln := rln.(nextSibling := Ref(c + 5));
      rlf := rlf.(nextSibling := Ref(c + 6));
      run := run.(nextSibling := Ref(c + 7));
      me := me.(isSplit := true);
      ChildNodes(nodes[l], l, c);
      ILocAsWrittenValues();
      assert lln == ChildNode(nodes[l], l, c, 0) && llf == ChildNode(nodes[l], l, c, 1);
      assert lun == ChildNode(nodes[l], l, c, 2) && luf == ChildNode(nodes[l], l, c, 3);
      assert rln == ChildNode(nodes[l], l, c, 4) && rlf == ChildNode(nodes[l], l, c, 5);
      assert run == ChildNode(nodes[l], l, c, 6) && ruf == ChildNode(nodes[l], l, c, 7);
      nodes := nodes[l := me] + [lln, llf, lun, luf, rln, rlf, run, ruf];
    }

    /** `OctreeNode::IdxToNodePointer`: walk idx steps along the sibling chain
        from node i's first child. On a split node this is child idx, the
        child whose location code is idx, up to the null past the last one. */
    method IdxToNodePointer(i: nat, idx: nat) returns (r: Ref)
      requires i < |nodes|
      requires idx > 0 ==> SplitOk(nodes, i) && idx <= 8
      ensures idx == 0 ==> r == nodes[i].firstChild
      ensures idx > 0 ==> r == if idx < 8 then Ref(nodes[i].firstChild.index + idx) else Null
      ensures SplitOk(nodes, i) && idx < 8 ==>
        r.Ref? && r.index < |nodes| && nodes[r.index].parent == Ref(i) && nodes[r.index].loc == ChildLoc(idx)
    {
      if idx == 0 {
        r := nodes[i].firstChild;
        if SplitOk(nodes, i) {
          assert IsChild(nodes[i], i, r.index, 0, nodes[r.index]);
        }
      } else {
        var c := nodes[i].firstChild.index;
        var node := nodes[i].firstChild;
        var k := 0;
        while k < idx
          invariant k <= idx
          invariant node == if k < 8 then Ref(c + k) else Null
        {
          assert IsChild(nodes[i], i, c, k, nodes[c + k]);
          node := nodes[node.index].nextSibling;
          k := k + 1;
        }
        r := node;
        if idx < 8 {
          assert IsChild(nodes[i], i, c, idx, nodes[c + idx]);
        }
      }
    }

    /** `OctreeNode::Rebalance` on node i: each of its objects, in list
        order, is added to the child its octant code selects; then its list
        is cleared. */
    method RebalanceNode(i: nat)
      requires i < |nodes| && SplitOk(nodes, i) && Below(nodes[i].objects, |voxels|)
      modifies this
      ensures numNodes == old(numNodes) && voxels == old(voxels) && numVoxels == old(numVoxels) && maxPerCell == old(maxPerCell)
      ensures nodes == Rebalanced(old(nodes), i, voxels)
    {
      ghost var ns0 := nodes;
      var objs := nodes[i].objects;
      var j := 0;
      while j < |objs|
        invariant j <= |objs| && voxels == old(voxels)
        invariant numNodes == old(numNodes) && numVoxels == old(numVoxels) && maxPerCell == old(maxPerCell)
        invariant nodes == Distribute(ns0, i, voxels, objs[..j])
        invariant SameSkeletons(ns0, nodes) && nodes[i] == ns0[i]
      {
        SkeletonSplitOk(ns0, nodes, i);
        var idx := nodes[i].BestIdx(Position(voxels[objs[j]]));
        var n := IdxToNodePointer(i, idx);
        DistributeStep(ns0, i, voxels, objs, j, n.index);
        AddObject(n.index, objs[j]);
        j := j + 1;
        DistributeSkeleton(ns0, i, voxels, objs[..j]);
        DistributeAt(ns0, i, voxels, objs[..j], i);
      }
      assert objs[..j] == ns0[i].objects;
      nodes := nodes[i := nodes[i].(objects := [])];
    }

    /** `Octree::Traverse`: descend from `node` along the octant codes of the
        voxel to a leaf and insert it there, subdividing the leaf when it
        overflows. */
    method Traverse(node: nat, o: nat)
      requires Valid() && Holds() && node < |nodes| && o < |voxels|
      requires nodes[node].Contains(Position(voxels[o]))
      modifies this
      ensures voxels == old(voxels) && numVoxels == old(numVoxels) && maxPerCell == old(maxPerCell)
      ensures Valid() && Holds()
      ensures var l := old(Locate(nodes, node, Position(voxels[o])));
        && nodes == Insert(old(nodes), voxels, l, o, maxPerCell)
        && numNodes == old(numNodes) + if Overflows(old(nodes[l]), maxPerCell) then 8 else 0
      ensures Objs(nodes) == old(Objs(nodes)) + multiset{o} && SameBoxes(old(nodes), nodes)
      decreases |nodes| - node
    {
      if nodes[node].isSplit {
        var idx := nodes[node].BestIdx(Position(voxels[o]));
        DescendChild(nodes, node, Position(voxels[o]));
        var n := IdxToNodePointer(node, idx);
        Traverse(n.index, o);
      } else {
        InsertAtLeaf(node, o);
      }
    }

    /** The leaf case of `Octree::Traverse`: add the voxel to leaf l and, when
        the list has grown beyond the capacity, subdivide and rebalance the
        leaf and count its eight new nodes. */
    method InsertAtLeaf(l: nat, o: nat)
      requires Valid() && Holds() && l < |nodes| && !nodes[l].isSplit && o < |voxels|
      requires nodes[l].Contains(Position(voxels[o]))
      modifies this
      ensures voxels == old(voxels) && numVoxels == old(numVoxels) && maxPerCell == old(maxPerCell)
      ensures Valid() && Holds()
      ensures nodes == Insert(old(nodes), voxels, l, o, maxPerCell)
      ensures numNodes == old(numNodes) + if Overflows(old(nodes[l]), maxPerCell) then 8 else 0
      ensures Objs(nodes) == old(Objs(nodes)) + multiset{o} && SameBoxes(old(nodes), nodes)
      ensures old(Locate(nodes, l, Position(voxels[o]))) == l
    {
      ghost var ns := nodes;
      LeafInsert(ns, voxels, l, o, maxPerCell);
      AddObject(l, o);
      if |nodes[l].objects| > maxPerCell {
        SubdivideNode(l);
        RebalanceNode(l);
        numNodes := numNodes + 8;
      }
    }

    /** `Octree::Build`: insert, in array order, every voxel among the first
        numVoxels that lies inside the root box. */
    method Build()
      requires Valid() && Holds() && numVoxels <= |voxels|
      modifies this
      ensures voxels == old(voxels) && numVoxels == old(numVoxels) && maxPerCell == old(maxPerCell)
      ensures Valid() && Holds()
      ensures Objs(nodes) == old(Objs(nodes)) + multiset(InBound(old(nodes[0]), voxels, numVoxels))
      ensures SameBoxes(old(nodes), nodes)
      ensures InBound(old(nodes[0]), voxels, numVoxels) == [] ==> nodes == old(nodes) && numNodes == old(numNodes)
    {
      ghost var ns0 := nodes;
      ghost var placed: multiset<nat> := multiset{};
      var i := 0;
      while i < numVoxels
        invariant i <= numVoxels && Valid() && Holds()
        invariant voxels == old(voxels) && numVoxels == old(numVoxels) && maxPerCell == old(maxPerCell)
        invariant placed == multiset(InBound(ns0[0], voxels, i))
        invariant Objs(nodes) == Objs(ns0) + placed
        invariant SameBoxes(ns0, nodes)
        invariant InBound(ns0[0], voxels, i) == [] ==> nodes == ns0
      {
        ghost var before := nodes;
        InBoundStep(ns0[0], nodes[0], voxels, i);
        InBoundGrows(ns0[0], nodes[0], voxels, i);
        if nodes[0].Contains(Position(voxels[i])) {
          Traverse(0, i);
          SameBoxesTrans(ns0, before, nodes);
          AddOne(Objs(nodes), Objs(before), Objs(ns0), placed, i);
          placed := placed + multiset{i};
        }
        i := i + 1;
      }
    }
  }

  /** At a split node the descent continues at the child the octant code
      selects, which follows the node in the arena and contains the point. */
  lemma DescendChild(ns: seq<Node>, i: nat, p: Vec3)
    requires WellFormed(ns, -1) && i < |ns| && ns[i].isSplit && ns[i].Contains(p)
    ensures SplitOk(ns, i)
    ensures var j := ns[i].firstChild.index + ns[i].BestIdx(p);
      && i < j < |ns| && ns[j].Contains(p) && Locate(ns, i, p) == Locate(ns, j, p)
  {
    NodeAt(ns, i, -1);
    var c := ns[i].firstChild.index;
    var j := c + ns[i].BestIdx(p);
    assert IsChild(ns[i], i, c, j - c, ns[j]);
    ChildContains(ns[i], p, ns[j]);
  }

  /** Inserting at a leaf, as Traverse ends: all of the tree's invariants
      carry over, one more object is stored, and the node count grows by
      eight exactly when the leaf overflows. */
  lemma LeafInsert(ns: seq<Node>, voxels: seq<Voxel>, l: nat, o: nat, maxPerCell: nat)
    requires WellFormed(ns, -1) && |ns| == 1 + 8 * SplitCount(ns) && Stored(ns, |voxels|) && Contained(ns, voxels)
    requires l < |ns| && !ns[l].isSplit && o < |voxels| && ns[l].Contains(Position(voxels[o]))
    ensures Locate(ns, l, Position(voxels[o])) == l
    ensures var r := Insert(ns, voxels, l, o, maxPerCell);
      && WellFormed(r, -1)
      && |r| == 1 + 8 * SplitCount(r)
      && |r| == |ns| + (if Overflows(ns[l], maxPerCell) then 8 else 0)
      && Stored(r, |voxels|) && Contained(r, voxels)
      && Objs(r) == Objs(ns) + multiset{o} && SameBoxes(ns, r)
  {
    InsertSpec(ns, voxels, l, o, maxPerCell);
    InsertStored(ns, voxels, l, o, maxPerCell);
    InsertContained(ns, voxels, l, o, maxPerCell);
  }

  /** One more voxel considered by Build: it is inserted exactly when it lies
      in the root box. */
  lemma InBoundStep(root: Node, root': Node, voxels: seq<Voxel>, i: nat)
    requires i < |voxels| && root'.center == root.center && root'.halfsize == root.halfsize
    ensures multiset(InBound(root, voxels, i + 1)) ==
      multiset(InBound(root, voxels, i)) + if root'.Contains(Position(voxels[i])) then multiset{i} else multiset{}
  {
  }

  /** Build considers voxel i: the list it inserts gains i when the root box holds it. */
  lemma InBoundGrows(root: Node, root': Node, voxels: seq<Voxel>, i: nat)
    requires i < |voxels| && root'.center == root.center && root'.halfsize == root.halfsize
    ensures InBound(root, voxels, i + 1) ==
      InBound(root, voxels, i) + if root'.Contains(Position(voxels[i])) then [i] else []
  {
  }

  /** After building an empty tree, each voxel inside the root box among
      the first n sits in exactly one node, a leaf whose box contains it,
      and every other voxel sits nowhere. */
  lemma BuiltPlacement(ns: seq<Node>, voxels: seq<Voxel>, root: Node, n: nat, o: nat)
    requires WellFormed(ns, -1) && Contained(ns, voxels) && n <= |voxels| && o < |voxels|
    requires Objs(ns) == multiset(InBound(root, voxels, n))
    ensures o < n && root.Contains(Position(voxels[o])) ==>
      && (exists l :: 0 <= l < |ns| && !ns[l].isSplit && o in ns[l].objects && ns[l].Contains(Position(voxels[o])))
      && (forall i, i' :: 0 <= i < |ns| && 0 <= i' < |ns| && o in ns[i].objects && o in ns[i'].objects ==> i == i')
    ensures !(o < n && root.Contains(Position(voxels[o]))) ==> forall i :: 0 <= i < |ns| ==> o !in ns[i].objects
  {
    InBoundCount(root, voxels, n, o);
    if o < n && root.Contains(Position(voxels[o])) {
      PlacedOnce(ns, voxels, o);
    } else {
      PlacedNowhere(ns, o);
    }
  }

  lemma AddOne(now: multiset<nat>, before: multiset<nat>, start: multiset<nat>, placed: multiset<nat>, i: nat)
    requires before == start + placed && now == before + multiset{i}
    ensures now == start + (placed + multiset{i})
  {
  }

  lemma SameBoxesTrans(a: seq<Node>, b: seq<Node>, c: seq<Node>)
    requires SameBoxes(a, b) && SameBoxes(b, c)
    ensures SameBoxes(a, c)
  {
  }

  /** The eight children of a subdivision, written out. */
  lemma ChildNodes(n: Node, l: nat, c: nat)
    ensures seq(8, k requires 0 <= k < 8 => ChildNode(n, l, c, k)) ==
      [ChildNode(n, l, c, 0), ChildNode(n, l, c, 1), ChildNode(n, l, c, 2), ChildNode(n, l, c, 3),
       ChildNode(n, l, c, 4), ChildNode(n, l, c, 5), ChildNode(n, l, c, 6), ChildNode(n, l, c, 7)]
    ensures var q, x := Half(n.halfsize), n.center;
      && ChildNode(n, l, c, 0) == NewNode(Vec3(x.x - q.x, x.y - q.y, x.z - q.z), q, Ref(l), 0).(nextSibling := Ref(c + 1))
      && ChildNode(n, l, c, 1) == NewNode(Vec3(x.x - q.x, x.y - q.y, x.z + q.z), q, Ref(l), 0).(nextSibling := Ref(c + 2))
      && ChildNode(n, l, c, 2) == NewNode(Vec3(x.x - q.x, x.y + q.y, x.z - q.z), q, Ref(l), 0).(nextSibling := Ref(c + 3))
      && ChildNode(n, l, c, 3) == NewNode(Vec3(x.x - q.x, x.y + q.y, x.z + q.z), q, Ref(l), 0).(nextSibling := Ref(c + 4))
      && ChildNode(n, l, c, 4) == NewNode(Vec3(x.x + q.x, x.y - q.y, x.z - q.z), q, Ref(l), 8).(nextSibling := Ref(c + 5))
      && ChildNode(n, l, c, 5) == NewNode(Vec3(x.x + q.x, x.y - q.y, x.z + q.z), q, Ref(l), 16).(nextSibling := Ref(c + 6))
      && ChildNode(n, l, c, 6) == NewNode(Vec3(x.x + q.x, x.y + q.y, x.z - q.z), q, Ref(l), 16).(nextSibling := Ref(c + 7))
      && ChildNode(n, l, c, 7) == NewNode(Vec3(x.x + q.x, x.y + q.y, x.z + q.z), q, Ref(l), 32)
  {
  }

  /** Every node's list is empty when no object is counted. */
  lemma PlacedNowhereAll(ns: seq<Node>, i: nat)
    requires i < |ns| && Objs(ns) == multiset{}
    ensures ns[i].objects == []
  {
    if ns[i].objects != [] {
      ObjsHolds(ns, i, ns[i].objects[0]);
    }
  }

  /** Node i keeps its split shape when only object lists change. */
  lemma SkeletonSplitOk(ns: seq<Node>, ns': seq<Node>, i: nat)
    requires i < |ns| && SplitOk(ns, i) && SameSkeletons(ns, ns')
    ensures SplitOk(ns', i)
  {
    var f := ns[i].firstChild.index;
    assert Skeleton(ns'[i]) == Skeleton(ns[i]);
    forall j | f <= j < f + 8 ensures IsChild(ns'[i], i, f, j - f, ns'[j]) {
      assert IsChild(ns[i], i, f, j - f, ns[j]);
      assert Skeleton(ns'[j]) == Skeleton(ns[j]);
    }
  }
}
