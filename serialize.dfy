/** The field order of the library's `serialize` members. One member both
    saves and loads, so a record is read back in the order it was written.
    The archive is modelled as a stream of typed values. Pointers appear by
    identity: a node pointer as an arena reference, a voxel pointer as an
    index into the voxel array. The archive library's byte format and its
    object tracking are not modelled. */
module Archives {
  import opened Voxels
  import opened OctreeNodes
  import opened Octrees

  /** One value in the archive, tagged with its C++ type. */
  datatype Value =
    | Short(s: Int16)
    | UChar(u: UInt8)
    | Float(f: real)
    | UInt(n: nat)
    | Bool(b: bool)
    | NodePointer(p: Ref)
    | VoxelPointer(index: nat)
    | VoxelPointers(indices: seq<nat>)

  /** A load: the record read and the rest of the stream, or a failure when
      the stream does not start with the record's fields. */
  datatype Loaded<T> = Fail | Loaded(value: T, rest: seq<Value>)

  // ---------------------------------------------------------------------
  // VisibleVoxel: X, Y, Z, R, G, B

  function SaveVoxel(v: Voxel): (s: seq<Value>)
    ensures |s| == 6
  {
    [Short(v.x), Short(v.y), Short(v.z), UChar(v.r), UChar(v.g), UChar(v.b)]
  }

  function LoadVoxel(s: seq<Value>): Loaded<Voxel>
  {
    if |s| >= 6 && s[0].Short? && s[1].Short? && s[2].Short? && s[3].UChar? && s[4].UChar? && s[5].UChar?
    then Loaded(Voxel(s[0].s, s[1].s, s[2].s, s[3].u, s[4].u, s[5].u), s[6..])
    else Fail
  }

  /** Loading what was saved gives the voxel back and leaves what follows. */
  lemma VoxelRoundTrip(v: Voxel, rest: seq<Value>)
    ensures LoadVoxel(SaveVoxel(v) + rest) == Loaded(v, rest)
  {
    assert (SaveVoxel(v) + rest)[6..] == rest;
  }

  /** Whatever loads as a voxel is that voxel's saved form. */
  lemma VoxelLoadSaved(s: seq<Value>)
    requires LoadVoxel(s).Loaded?
    ensures s == SaveVoxel(LoadVoxel(s).value) + LoadVoxel(s).rest
  {
    assert s == s[..6] + s[6..];
  }

  /** A stream cut short inside a voxel does not load. */
  lemma VoxelTruncated(v: Voxel, k: nat)
    requires k < 6
    ensures LoadVoxel(SaveVoxel(v)[..k]) == Fail
  {
  }

  // ---------------------------------------------------------------------
  // Vec3: x, y, z

  function SaveVec3(p: Vec3): (s: seq<Value>)
    ensures |s| == 3
  {
    [Float(p.x), Float(p.y), Float(p.z)]
  }

  function LoadVec3(s: seq<Value>): (r: Loaded<Vec3>)
    ensures r.Loaded? ==> |r.rest| == |s| - 3
  {
    if |s| >= 3 && s[0].Float? && s[1].Float? && s[2].Float?
    then Loaded(Vec3(s[0].f, s[1].f, s[2].f), s[3..])
    else Fail
  }

  lemma Vec3RoundTrip(p: Vec3, rest: seq<Value>)
    ensures LoadVec3(SaveVec3(p) + rest) == Loaded(p, rest)
  {
    assert (SaveVec3(p) + rest)[3..] == rest;
  }

  lemma Vec3LoadSaved(s: seq<Value>)
    requires LoadVec3(s).Loaded?
    ensures s == SaveVec3(LoadVec3(s).value) + LoadVec3(s).rest
  {
    assert s == s[..3] + s[3..];
  }

  // ---------------------------------------------------------------------
  // OctreeNode: Center, Halfsize, NextSibling, Parent, FirstChild,
  // Objects, Loc, IsRoot, IsSplit

  /** The seven fields after the two vectors. */
  function SaveNodeTail(n: Node): (s: seq<Value>)
    ensures |s| == 7
  {
    [NodePointer(n.nextSibling), NodePointer(n.parent), NodePointer(n.firstChild),
     VoxelPointers(n.objects), UInt(n.loc), Bool(n.isRoot), Bool(n.isSplit)]
  }

  function SaveNode(n: Node): (s: seq<Value>)
    ensures |s| == 13
  {
    SaveVec3(n.center) + SaveVec3(n.halfsize) + SaveNodeTail(n)
  }

  /** Reads the seven fields after the vectors into a node with the given box. */
  function LoadNodeTail(center: Vec3, halfsize: Vec3, s: seq<Value>): Loaded<Node>
  {
    if |s| >= 7 && s[0].NodePointer? && s[1].NodePointer? && s[2].NodePointer?
       && s[3].VoxelPointers? && s[4].UInt? && s[5].Bool? && s[6].Bool?
    then Loaded(Node(center, halfsize, s[0].p, s[1].p, s[2].p, s[3].indices, s[4].n, s[5].b, s[6].b), s[7..])
    else Fail
  }

  function LoadNode(s: seq<Value>): Loaded<Node>
  {
    match LoadVec3(s)
    case Fail => Fail
    case Loaded(center, s1) =>
      match LoadVec3(s1)
      case Fail => Fail
      case Loaded(halfsize, s2) => LoadNodeTail(center, halfsize, s2)
  }

  lemma NodeRoundTrip(n: Node, rest: seq<Value>)
    ensures LoadNode(SaveNode(n) + rest) == Loaded(n, rest)
  {
    var a, b, t := SaveVec3(n.center), SaveVec3(n.halfsize), SaveNodeTail(n);
    assert SaveNode(n) + rest == a + (b + (t + rest));
    Vec3RoundTrip(n.center, b + (t + rest));
    Vec3RoundTrip(n.halfsize, t + rest);
    assert (t + rest)[7..] == rest;
  }

  lemma NodeLoadSaved(s: seq<Value>)
    requires LoadNode(s).Loaded?
    ensures s == SaveNode(LoadNode(s).value) + LoadNode(s).rest
  {
    Vec3LoadSaved(s);
    var s1 := LoadVec3(s).rest;
    Vec3LoadSaved(s1);
    var s2 := LoadVec3(s1).rest;
    assert s2 == s2[..7] + s2[7..];
    var n := LoadNode(s).value;
    assert s2[..7] == SaveNodeTail(n);
  }

  /** A stream cut short inside a node does not load. */
  lemma NodeTruncated(n: Node, k: nat)
    requires k < 13
    ensures LoadNode(SaveNode(n)[..k]) == Fail
  {
    var s := SaveNode(n)[..k];
    if LoadNode(s).Loaded? {
      NodeLoadSaved(s);
      assert false;
    }
  }

  // ---------------------------------------------------------------------
  // Octree: m_Voxels, m_Root, m_MaxPerCell, m_NumVoxels, m_NumNodes

  /** The counters an octree archive records beside its two pointers. */
  datatype Header = Header(maxPerCell: nat, numVoxels: nat, numNodes: nat)

  function HeaderOf(t: Octree): Header
    reads t
  {
    Header(t.maxPerCell, t.numVoxels, t.numNodes)
  }

  /** The voxel array pointer designates voxel 0 and the root pointer node 0. */
  function SaveOctree(h: Header): (s: seq<Value>)
    ensures |s| == 5
  {
    [VoxelPointer(0), NodePointer(Ref(0)), UInt(h.maxPerCell), UInt(h.numVoxels), UInt(h.numNodes)]
  }

  function LoadOctree(s: seq<Value>): Loaded<Header>
  {
    if |s| >= 5 && s[0] == VoxelPointer(0) && s[1] == NodePointer(Ref(0)) && s[2].UInt? && s[3].UInt? && s[4].UInt?
    then Loaded(Header(s[2].n, s[3].n, s[4].n), s[5..])
    else Fail
  }

  lemma OctreeRoundTrip(t: Octree, rest: seq<Value>)
    ensures LoadOctree(SaveOctree(HeaderOf(t)) + rest) == Loaded(HeaderOf(t), rest)
  {
    assert (SaveOctree(HeaderOf(t)) + rest)[5..] == rest;
  }

  lemma OctreeLoadSaved(s: seq<Value>)
    requires LoadOctree(s).Loaded?
    ensures s == SaveOctree(LoadOctree(s).value) + LoadOctree(s).rest
  {
    assert s == s[..5] + s[5..];
  }
}
