/** One node of the adaptive octree: an axis-aligned box given by its centre
    and its half extent per axis, the octant code that picks a child, the
    containment test, and the geometry of the eight children that a
    subdivision creates. Coordinates are exact reals. */
module OctreeNodes {
  import opened Voxels

  datatype Vec3 = Vec3(x: real, y: real, z: real)

  /** A node pointer of the source, as an index into the tree's node arena. */
  datatype Ref = Null | Ref(index: nat)

  /** The fields of an octree node, in declaration order. `objects` holds
      the voxels stored at the node, each as an index into the voxel array. */
  datatype Node = Node(
    center: Vec3,
    halfsize: Vec3,
    nextSibling: Ref,
    parent: Ref,
    firstChild: Ref,
    objects: seq<nat>,
    loc: nat,
    isRoot: bool,
    isSplit: bool)
  {
    /** The 3-bit octant code of `v`: bit 2 for x, bit 1 for y, bit 0 for z,
        each set when the coordinate is strictly greater than the centre's. */
    function BestIdx(v: Vec3): (idx: nat)
      ensures idx < 8
      ensures XBit(idx) <==> v.x > center.x
      ensures YBit(idx) <==> v.y > center.y
      ensures ZBit(idx) <==> v.z > center.z
    {
      (if v.x > center.x then 4 else 0) + (if v.y > center.y then 2 else 0) + (if v.z > center.z then 1 else 0)
    }

    /** The inclusive box test: no coordinate is farther from the centre than
        the half extent on that axis. */
    predicate Contains(p: Vec3)
    {
      !(Abs(center.x - p.x) > halfsize.x || Abs(center.y - p.y) > halfsize.y || Abs(center.z - p.z) > halfsize.z)
    }
  }

  predicate XBit(k: nat) { k / 4 % 2 == 1 }
  predicate YBit(k: nat) { k / 2 % 2 == 1 }
  predicate ZBit(k: nat) { k % 2 == 1 }

  function Abs(a: real): real { if a < 0.0 then -a else a }

  /** The position of a voxel, its integer coordinates read as reals. */
  function Position(v: Voxel): Vec3
  {
    Vec3(v.x as real, v.y as real, v.z as real)
  }

  /** The interval reading of Contains: the point lies in the closed box. */
  lemma ContainsIsClosedBox(n: Node, p: Vec3)
    ensures n.Contains(p) <==>
      && n.center.x - n.halfsize.x <= p.x <= n.center.x + n.halfsize.x
      && n.center.y - n.halfsize.y <= p.y <= n.center.y + n.halfsize.y
      && n.center.z - n.halfsize.z <= p.z <= n.center.z + n.halfsize.z
  {
  }

  /** A node as the node constructor leaves it: not root, not split, with no
      sibling, no child and no objects. */
  function NewNode(center: Vec3, halfsize: Vec3, parent: Ref, loc: nat): (n: Node)
    ensures !n.isRoot && !n.isSplit
    ensures n.nextSibling == Null && n.firstChild == Null && n.objects == []
    ensures n.center == center && n.halfsize == halfsize && n.parent == parent && n.loc == loc
  {
    Node(center, halfsize, Null, parent, Null, [], loc, false, false)
  }

  /** Half of a half extent: the children's half extent. */
  function Half(h: Vec3): Vec3
  {
    Vec3(h.x * 0.5, h.y * 0.5, h.z * 0.5)
  }

  /** The eight child centres in the order the subdivision creates them:
      x is the slowest-varying axis and z the fastest, low side first. */
  function ChildCenters(c: Vec3, q: Vec3): (cs: seq<Vec3>)
    ensures |cs| == 8
  {
    [ Vec3(c.x - q.x, c.y - q.y, c.z - q.z),
      Vec3(c.x - q.x, c.y - q.y, c.z + q.z),
      Vec3(c.x - q.x, c.y + q.y, c.z - q.z),
      Vec3(c.x - q.x, c.y + q.y, c.z + q.z),
      Vec3(c.x + q.x, c.y - q.y, c.z - q.z),
      Vec3(c.x + q.x, c.y - q.y, c.z + q.z),
      Vec3(c.x + q.x, c.y + q.y, c.z - q.z),
      Vec3(c.x + q.x, c.y + q.y, c.z + q.z) ]
  }

  function Shift(low: real, q: real, high: bool): real
  {
    if high then low + q else low - q
  }

  /** Child k sits on the high side of an axis exactly when the bit of k for
      that axis is set. */
  lemma ChildCenterBits(c: Vec3, q: Vec3, k: nat)
    requires k < 8
    ensures ChildCenters(c, q)[k] == Vec3(Shift(c.x, q.x, XBit(k)), Shift(c.y, q.y, YBit(k)), Shift(c.z, q.z, ZBit(k)))
  {
    assert k == 0 || k == 1 || k == 2 || k == 3 || k == 4 || k == 5 || k == 6 || k == 7;
  }

  /** The centre of child k of a node. */
  function ChildCenter(n: Node, k: nat): Vec3
    requires k < 8
  {
    ChildCenters(n.center, Half(n.halfsize))[k]
  }

  /** The sibling position of a child is the octant code of its own centre:
      child k lies in octant k of its parent. */
  lemma ChildOctant(n: Node, k: nat)
    requires k < 8
    requires n.halfsize.x > 0.0 && n.halfsize.y > 0.0 && n.halfsize.z > 0.0
    ensures n.BestIdx(ChildCenter(n, k)) == k
  {
    ChildCenterBits(n.center, Half(n.halfsize), k);
    var i := n.BestIdx(ChildCenter(n, k));
    assert XBit(i) == XBit(k) && YBit(i) == YBit(k) && ZBit(i) == ZBit(k);
    assert k == 0 || k == 1 || k == 2 || k == 3 || k == 4 || k == 5 || k == 6 || k == 7;
    assert i == 0 || i == 1 || i == 2 || i == 3 || i == 4 || i == 5 || i == 6 || i == 7;
  }

  /** A point inside a node is inside the child its octant code selects,
      boundary points included: the children cover the parent's box. */
  lemma ChildContains(n: Node, p: Vec3, child: Node)
    requires n.Contains(p)
    requires child.center == ChildCenter(n, n.BestIdx(p)) && child.halfsize == Half(n.halfsize)
    ensures child.Contains(p)
  {
    var k := n.BestIdx(p);
    ChildCenterBits(n.center, Half(n.halfsize), k);
    ContainsIsClosedBox(n, p);
    ContainsIsClosedBox(child, p);
  }

  /** A C++ `unsigned int`. */
  type UInt32 = bv32

  /** The location macro as the compiler reads it: `+` binds tighter than
      `<<`, so `x << 2 + y << 1 + z << 0` is `((x << (2 + y)) << (1 + z)) << 0`. */
  function ILocAsWritten(x: UInt32, y: UInt32, z: UInt32): UInt32
    requires x < 2 && y < 2 && z < 2
  {
    ((x << (2 + y)) << (1 + z)) << 0
  }

  /** The values the compiled macro gives, in the order Subdivide creates
      the children: 0, 0, 0, 0, 8, 16, 16, 32. */
  lemma ILocAsWrittenValues()
    ensures ILocAsWritten(0, 0, 0) == 0 && ILocAsWritten(0, 0, 1) == 0 && ILocAsWritten(0, 1, 0) == 0 && ILocAsWritten(0, 1, 1) == 0
    ensures ILocAsWritten(1, 0, 0) == 8 && ILocAsWritten(1, 0, 1) == 16 && ILocAsWritten(1, 1, 0) == 16 && ILocAsWritten(1, 1, 1) == 32
  {
  }

  /** The location code Subdivide stores in child k, in creation order
      lln … ruf. */
  function ChildLoc(k: nat): (loc: nat)
    requires k < 8
  {
    if k < 4 then 0 else if k == 4 then 8 else if k < 7 then 16 else 32
  }

  /** Child k's stored code is the compiled macro applied to k's three
      flags: the four low-x children share code 0. */
  lemma ChildLocValues(k: nat)
    requires k < 8
    ensures ChildLoc(k) == ILocAsWritten(if XBit(k) then 1 else 0, if YBit(k) then 1 else 0, if ZBit(k) then 1 else 0) as nat
  {
    ILocAsWrittenValues();
    assert k == 0 || k == 1 || k == 2 || k == 3 || k == 4 || k == 5 || k == 6 || k == 7;
  }

  /** The location macro as evidently intended: bit 2 for x, bit 1 for y,
      bit 0 for z. */
  function ILoc(x: UInt32, y: UInt32, z: UInt32): UInt32
    requires x < 2 && y < 2 && z < 2
  {
    (x << 2) + (y << 1) + (z << 0)
  }

  /** As written, the macro gives children 0 (lln) and 1 (llf) the same code,
      and child 4 (rln) the code 8, outside the octant range. */
  lemma ILocAsWrittenCollides()
    ensures ILocAsWritten(0, 0, 1) == ILocAsWritten(0, 0, 0) == 0
    ensures ILocAsWritten(1, 0, 0) == 8
  {
  }

  /** The intended macro is the octant code: its bits are the three flags. */
  lemma ILocBits(x: UInt32, y: UInt32, z: UInt32)
    requires x < 2 && y < 2 && z < 2
    ensures var k := ILoc(x, y, z) as nat;
      && k < 8
      && (XBit(k) <==> x == 1)
      && (YBit(k) <==> y == 1)
      && (ZBit(k) <==> z == 1)
  {
    var k := ILoc(x, y, z) as nat;
    assert k == 4 * x as nat + 2 * y as nat + z as nat;
  }

  /** The codes the subdivision asks for, child by child in creation order:
      each child is numbered by its sibling position. */
  lemma ILocValues()
    ensures ILoc(0, 0, 0) == 0 && ILoc(0, 0, 1) == 1 && ILoc(0, 1, 0) == 2 && ILoc(0, 1, 1) == 3
    ensures ILoc(1, 0, 0) == 4 && ILoc(1, 0, 1) == 5 && ILoc(1, 1, 0) == 6 && ILoc(1, 1, 1) == 7
  {
  }
}
