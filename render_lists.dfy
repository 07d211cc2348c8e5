/** What the octree renderer puts into its buffers, as functions of the
    arena and of a walk order: the eight corners of a node's box, the 36
    indices that draw the box as twelve triangles, and one point per voxel
    stored in a leaf. The lemmas count what a walk over the whole tree
    emits. */
module RenderLists {
  import opened Voxels
  import opened OctreeNodes
  import opened NodeArena
  import opened TreeWalk
  import opened VertexBuffers

  // ---------------------------------------------------------------------
  // One box

  /** A corner of a node's box, drawn white at 20% opacity; each flag picks
      the high side of its axis. */
  function Corner(n: Node, hx: bool, hy: bool, hz: bool): Vertex
  {
    Vertex(Shift(n.center.x, n.halfsize.x, hx), Shift(n.center.y, n.halfsize.y, hy), Shift(n.center.z, n.halfsize.z, hz),
           1.0, 1.0, 1.0, 0.2)
  }

  /** The corners in the order the renderer emits them: the near face
      (low z) counter-clockwise from the low corner, then the far face. */
  function NodeCorners(n: Node): (cs: seq<Vertex>)
  {
    [ Corner(n, false, false, false), Corner(n, false, true, false), Corner(n, true, true, false), Corner(n, true, false, false),
      Corner(n, false, false, true), Corner(n, false, true, true), Corner(n, true, true, true), Corner(n, true, false, true) ]
  }

  /** Which side of each axis corner k of NodeCorners lies on. */
  predicate HighX(k: nat) { k == 2 || k == 3 || k == 6 || k == 7 }
  predicate HighY(k: nat) { k == 1 || k == 2 || k == 5 || k == 6 }
  predicate HighZ(k: nat) { k >= 4 }

  /** The emitted corners are the eight vertices of the box, each once. */
  lemma NodeCornersAreBox(n: Node)
    ensures |NodeCorners(n)| == 8
    ensures forall k :: 0 <= k < 8 ==> NodeCorners(n)[k] == Corner(n, HighX(k), HighY(k), HighZ(k))
    ensures forall k, m :: 0 <= k < m < 8 ==> (HighX(k), HighY(k), HighZ(k)) != (HighX(m), HighY(m), HighZ(m))
  {
    forall k | 0 <= k < 8 ensures NodeCorners(n)[k] == Corner(n, HighX(k), HighY(k), HighZ(k)) {
      assert k == 0 || k == 1 || k == 2 || k == 3 || k == 4 || k == 5 || k == 6 || k == 7;
    }
  }

  /** Corner offset k of the twelve triangles, three per triangle (two
      triangles per face), as the index list gives them. */
  function CubePattern(k: nat): (c: nat)
    requires k < 36
    ensures c < 8
  {
    match k
    case 0 => 0 case 1 => 3 case 2 => 1
    case 3 => 3 case 4 => 2 case 5 => 1
    case 6 => 3 case 7 => 7 case 8 => 2
    case 9 => 7 case 10 => 6 case 11 => 2
    case 12 => 7 case 13 => 4 case 14 => 6
    case 15 => 4 case 16 => 5 case 17 => 6
    case 18 => 4 case 19 => 0 case 20 => 5
    case 21 => 0 case 22 => 1 case 23 => 5
    case 24 => 1 case 25 => 2 case 26 => 5
    case 27 => 2 case 28 => 6 case 29 => 5
    case 30 => 4 case 31 => 7 case 32 => 3
    case 33 => 0 case 34 => 4 case _ => 3
  }

  /** The indices that draw the box whose corners start at `offset`. */
  function CubeIndices(offset: nat): (r: seq<nat>)
    ensures |r| == 36
  {
    seq(36, k requires 0 <= k < 36 => offset + CubePattern(k))
  }

  /** Three corners on one face of the box: they agree on some axis. */
  predicate OnOneFace(a: nat, b: nat, c: nat)
  {
    || (HighX(a) == HighX(b) == HighX(c))
    || (HighY(a) == HighY(b) == HighY(c))
    || (HighZ(a) == HighZ(b) == HighZ(c))
  }

  /** Where each corner first appears in the pattern. */
  const CornerUse: seq<nat> := [0, 2, 4, 1, 13, 16, 10, 7]

  /** The cube's indices name only its own eight corners, and every corner
      is used. */
  lemma CubeIndicesRange(offset: nat)
    ensures forall k :: 0 <= k < 36 ==> offset <= CubeIndices(offset)[k] < offset + 8
    ensures forall c :: 0 <= c < 8 ==> CubeIndices(offset)[CornerUse[c]] == offset + c
  {
    forall c | 0 <= c < 8 ensures CubeIndices(offset)[CornerUse[c]] == offset + c {
      assert c == 0 || c == 1 || c == 2 || c == 3 || c == 4 || c == 5 || c == 6 || c == 7;
    }
  }

  /** Triangle t of the pattern has three different corners on one face. */
  predicate TriangleOnFace(t: nat)
    requires t < 12
  {
    var a, b, c := CubePattern(3 * t), CubePattern(3 * t + 1), CubePattern(3 * t + 2);
    a != b && b != c && a != c && OnOneFace(a, b, c)
  }

  /** Each of the twelve triangles has three different corners on one face. */
  lemma CubeTriangles()
    ensures forall t :: 0 <= t < 12 ==> TriangleOnFace(t)
  {
    forall t | 0 <= t < 12 ensures TriangleOnFace(t) {
      assert t == 0 || t == 1 || t == 2 || t == 3 || t == 4 || t == 5 || t == 6 || t == 7 || t == 8 || t == 9 || t == 10 || t == 11;
    }
  }

  /** The index lists of n boxes whose corners are stored one box after the
      other from `base` on. */
  function Cubes(base: nat, n: nat): (r: seq<nat>)
    ensures |r| == 36 * n
  {
    if n == 0 then [] else Cubes(base, n - 1) + CubeIndices(base + 8 * (n - 1))
  }

  lemma {:induction false} CubesAppend(base: nat, n: nat, m: nat)
    ensures Cubes(base, n) + Cubes(base + 8 * n, m) == Cubes(base, n + m)
    decreases m
  {
    if m > 0 {
      CubesAppend(base, n, m - 1);
      assert base + 8 * n + 8 * (m - 1) == base + 8 * (n + m - 1);
    }
  }

  /** Every index of n boxes from `base` on names one of their 8n corners. */
  lemma {:induction false} CubesBelow(base: nat, n: nat)
    ensures forall k :: 0 <= k < |Cubes(base, n)| ==> base <= Cubes(base, n)[k] < base + 8 * n
    decreases n
  {
    if n > 0 {
      CubesBelow(base, n - 1);
      CubeIndicesRange(base + 8 * (n - 1));
      var a, b := Cubes(base, n - 1), CubeIndices(base + 8 * (n - 1));
      assert Cubes(base, n) == a + b;
      forall k | 0 <= k < |a + b| ensures base <= (a + b)[k] < base + 8 * n {
        if k >= |a| {
          assert (a + b)[k] == b[k - |a|];
        }
      }
    }
  }

  // ---------------------------------------------------------------------
  // Along a walk

  /** The corners of the walk's nodes other than the root, in walk order. */
  function Boxes(ns: seq<Node>, order: seq<nat>): (r: seq<Vertex>)
    requires Below(order, |ns|)
  {
    if order == [] then []
    else (if ns[order[0]].isRoot then [] else NodeCorners(ns[order[0]])) + Boxes(ns, order[1..])
  }

  /** How many of the walk's nodes are not the root. */
  function NumBoxes(ns: seq<Node>, order: seq<nat>): (n: nat)
    requires Below(order, |ns|)
    ensures |Boxes(ns, order)| == 8 * n
  {
    if order == [] then 0
    else (if ns[order[0]].isRoot then 0 else 1) + NumBoxes(ns, order[1..])
  }

  /** The voxels stored at the walk's leaves, in walk order. */
  function LeafObjects(ns: seq<Node>, order: seq<nat>): (r: seq<nat>)
    requires Below(order, |ns|)
  {
    if order == [] then [] else Own(ns, order[0]) + LeafObjects(ns, order[1..])
  }

  /** The voxels node j contributes: its objects if it is a leaf. */
  function Own(ns: seq<Node>, j: nat): seq<nat>
    requires j < |ns|
  {
    if ns[j].isSplit then [] else ns[j].objects
  }

  lemma {:induction false} BelowAppend(a: seq<nat>, b: seq<nat>, n: nat)
    ensures Below(a + b, n) <==> Below(a, n) && Below(b, n)
  {
    if Below(a, n) && Below(b, n) {
      forall k | 0 <= k < |a + b| ensures (a + b)[k] < n {
        if k >= |a| {
          assert (a + b)[k] == b[k - |a|];
        }
      }
    }
    if Below(a + b, n) {
      forall k | 0 <= k < |b| ensures b[k] < n {
        assert (a + b)[|a| + k] == b[k];
      }
      forall k | 0 <= k < |a| ensures a[k] < n {
        assert (a + b)[k] == a[k];
      }
    }
  }

  /** Walking a then b emits what walking a, then walking b, emits. */
  lemma {:induction false} WalkAppend(ns: seq<Node>, a: seq<nat>, b: seq<nat>)
    requires Below(a, |ns|) && Below(b, |ns|)
    ensures Below(a + b, |ns|)
    ensures Boxes(ns, a + b) == Boxes(ns, a) + Boxes(ns, b)
    ensures NumBoxes(ns, a + b) == NumBoxes(ns, a) + NumBoxes(ns, b)
    ensures LeafObjects(ns, a + b) == LeafObjects(ns, a) + LeafObjects(ns, b)
    decreases |a|
  {
    BelowAppend(a, b, |ns|);
    if a == [] {
      assert a + b == b;
    } else {
      assert (a + b)[0] == a[0] && (a + b)[1..] == a[1..] + b;
      BelowAppend([a[0]], a[1..], |ns|);
      assert [a[0]] + a[1..] == a;
      WalkAppend(ns, a[1..], b);
    }
  }

  /** The walk from the root emits a box for every node but the root. */
  lemma WalkBoxes(ns: seq<Node>)
    requires WellFormed(ns, -1)
    ensures Below(PreOrder(ns, 0), |ns|)
    ensures NumBoxes(ns, PreOrder(ns, 0)) == |ns| - 1
  {
    var order := PreOrder(ns, 0);
    PreOrderAll(ns);
    RangeCount(0, |ns|, 0);
    assert Below(order, |ns|) by {
      forall k | 0 <= k < |order| ensures order[k] < |ns| {
        assert order[k] in order;
      }
    }
    NumBoxesCount(ns, order);
  }

  /** Only the root is skipped: the count is the walk's length less the
      number of times it lists node 0. */
  lemma {:induction false} NumBoxesCount(ns: seq<Node>, order: seq<nat>)
    requires WellFormed(ns, -1) && Below(order, |ns|)
    ensures NumBoxes(ns, order) + multiset(order)[0] == |order|
  {
    if order != [] {
      NodeAt(ns, order[0], -1);
      assert order == [order[0]] + order[1..];
      assert multiset(order) == multiset{order[0]} + multiset(order[1..]);
      NumBoxesCount(ns, order[1..]);
    }
  }

  /** Taking one node out of a walk takes out exactly its own voxels. */
  lemma WalkRemove(ns: seq<Node>, b: seq<nat>, k: nat)
    requires Below(b, |ns|) && k < |b|
    ensures Below(b[..k] + b[k + 1..], |ns|)
    ensures multiset(LeafObjects(ns, b)) == multiset(Own(ns, b[k])) + multiset(LeafObjects(ns, b[..k] + b[k + 1..]))
  {
    var b1, b2 := b[..k], b[k + 1..];
    assert b == b1 + ([b[k]] + b2);
    BelowAppend(b1, [b[k]] + b2, |ns|);
    BelowAppend([b[k]], b2, |ns|);
    WalkAppend(ns, b1, [b[k]] + b2);
    WalkAppend(ns, [b[k]], b2);
    WalkAppend(ns, b1, b2);
    LeafObjectsOne(ns, b[k]);
  }

  lemma LeafObjectsOne(ns: seq<Node>, j: nat)
    requires j < |ns|
    ensures Below([j], |ns|) && LeafObjects(ns, [j]) == Own(ns, j)
  {
    assert LeafObjects(ns, [j]) == Own(ns, j) + LeafObjects(ns, []);
  }

  lemma MultisetRemove(b: seq<nat>, k: nat)
    requires k < |b|
    ensures multiset(b[..k] + b[k + 1..]) == multiset(b) - multiset{b[k]}
  {
    assert b == b[..k] + [b[k]] + b[k + 1..];
  }

  /** Two walks listing the same nodes emit the same voxels, in some order. */
  lemma {:induction false} LeafObjectsPerm(ns: seq<Node>, a: seq<nat>, b: seq<nat>)
    requires Below(a, |ns|) && Below(b, |ns|) && multiset(a) == multiset(b)
    ensures multiset(LeafObjects(ns, a)) == multiset(LeafObjects(ns, b))
    decreases |a|
  {
    if a == [] {
      assert |multiset(b)| == 0;
    } else {
      var x := a[0];
      assert x in multiset(b);
      var k :| 0 <= k < |b| && b[k] == x;
      WalkRemove(ns, b, k);
      WalkRemove(ns, a, 0);
      var rest := b[..k] + b[k + 1..];
      MultisetRemove(b, k);
      MultisetRemove(a, 0);
      assert a[..0] + a[1..] == a[1..];
      LeafObjectsPerm(ns, a[1..], rest);
    }
  }

  /** Listing nodes m, m + 1, ... in arena order emits every object they hold. */
  lemma {:induction false} LeafObjectsRange(ns: seq<Node>, m: nat)
    requires WellFormed(ns, -1) && m <= |ns|
    ensures Below(Range(m, |ns|), |ns|)
    ensures multiset(LeafObjects(ns, Range(m, |ns|))) == Objs(ns[m..])
    decreases |ns| - m
  {
    if m == |ns| {
      assert ns[m..] == [];
    } else {
      var rest := Range(m + 1, |ns|);
      LeafObjectsRange(ns, m + 1);
      assert Range(m, |ns|) == [m] + rest;
      LeafObjectsCons(ns, m, rest);
      NodeAt(ns, m, -1);
      ObjsSuffix(ns, m);
    }
  }

  /** A walk that starts at node j emits j's own voxels, then the rest. */
  lemma LeafObjectsCons(ns: seq<Node>, j: nat, rest: seq<nat>)
    requires j < |ns| && Below(rest, |ns|)
    ensures Below([j] + rest, |ns|)
    ensures LeafObjects(ns, [j] + rest) == Own(ns, j) + LeafObjects(ns, rest)
  {
    BelowAppend([j], rest, |ns|);
    assert ([j] + rest)[1..] == rest;
  }

  lemma ObjsSuffix(ns: seq<Node>, m: nat)
    requires m < |ns|
    ensures Objs(ns[m..]) == multiset(ns[m].objects) + Objs(ns[m + 1..])
  {
    var t := ns[m..];
    assert t[0] == ns[m] && t[1..] == ns[m + 1..];
  }

  /** The walk from the root emits every stored voxel, with multiplicity. */
  lemma WalkObjects(ns: seq<Node>)
    requires WellFormed(ns, -1)
    ensures Below(PreOrder(ns, 0), |ns|)
    ensures multiset(LeafObjects(ns, PreOrder(ns, 0))) == Objs(ns)
  {
    WalkBoxes(ns);
    PreOrderAll(ns);
    LeafObjectsRange(ns, 0);
    assert ns[0..] == ns;
    LeafObjectsPerm(ns, PreOrder(ns, 0), Range(0, |ns|));
  }

  // ---------------------------------------------------------------------
  // Points

  /** A stored voxel as a point: its coordinates, its colour scaled to
      [0, 1], fully opaque. */
  function VoxelVertex(v: Voxel): (p: Vertex)
    ensures 0.0 <= p.r <= 1.0 && 0.0 <= p.g <= 1.0 && 0.0 <= p.b <= 1.0 && p.a == 1.0
    ensures Position(v) == Vec3(p.x, p.y, p.z)
  {
    Vertex(v.x as real, v.y as real, v.z as real, v.r as real / 255.0, v.g as real / 255.0, v.b as real / 255.0, 1.0)
  }

  /** The points of a list of voxel indices. */
  function PointVertices(voxels: seq<Voxel>, objs: seq<nat>): (r: seq<Vertex>)
    requires Below(objs, |voxels|)
    ensures |r| == |objs|
    ensures forall k :: 0 <= k < |objs| ==> r[k] == VoxelVertex(voxels[objs[k]])
  {
    seq(|objs|, k requires 0 <= k < |objs| => VoxelVertex(voxels[objs[k]]))
  }

  /** The points of a concatenation are the points of its parts, in order. */
  lemma PointVerticesAppend(voxels: seq<Voxel>, a: seq<nat>, b: seq<nat>)
    requires Below(a, |voxels|) && Below(b, |voxels|)
    ensures Below(a + b, |voxels|)
    ensures PointVertices(voxels, a + b) == PointVertices(voxels, a) + PointVertices(voxels, b)
  {
    BelowAppend(a, b, |voxels|);
    var p, q := PointVertices(voxels, a), PointVertices(voxels, b);
    forall k | 0 <= k < |a + b| ensures PointVertices(voxels, a + b)[k] == (p + q)[k] {
      if k >= |a| {
        assert (a + b)[k] == b[k - |a|];
        assert (p + q)[k] == q[k - |a|];
      } else {
        assert (a + b)[k] == a[k];
      }
    }
  }

  /** Every voxel a walk emits is one the arena stores. */
  lemma {:induction false} LeafObjectsStored(ns: seq<Node>, order: seq<nat>, numVoxels: nat)
    requires Below(order, |ns|) && Stored(ns, numVoxels)
    ensures Below(LeafObjects(ns, order), numVoxels)
    decreases |order|
  {
    if order != [] {
      LeafObjectsStored(ns, order[1..], numVoxels);
      assert Below(Own(ns, order[0]), numVoxels);
      BelowAppend(Own(ns, order[0]), LeafObjects(ns, order[1..]), numVoxels);
    }
  }
}
