/** The octree viewer: it walks the tree once to fill three vertex buffers
    (the root's box, the other nodes' boxes, one point per stored voxel),
    uploads them, and lets keys 1, 2 and 3 toggle their visibility. The
    window, the camera, the shaders and the draw loop are not modelled. */
module OctreeRendering {
  import opened Voxels
  import opened OctreeNodes
  import opened NodeArena
  import opened TreeWalk
  import opened VertexBuffers
  import opened RenderLists
  import opened Octrees

  /** The GLFW key and action codes the viewer reacts to. */
  const KeyEscape: int := 256
  const Key1: int := 49
  const Key2: int := 50
  const Key3: int := 51
  const Release: int := 0
  const Press: int := 1

  /** The number of key states the viewer tracks. */
  const NumKeys: nat := 1024

  /** A buffer's settings, everything but its two lists. */
  datatype Settings = Settings(
    mode: DrawMode, isHidden: bool, isBuilt: bool,
    uploadedVertices: seq<Vertex>, uploadedIndices: seq<nat>,
    translation: Vec3, rotation: Vec3, scale: Vec3)

  function SettingsOf(v: VertexBufferObject): Settings
    reads v
  {
    Settings(v.mode, v.isHidden, v.isBuilt, v.uploadedVertices, v.uploadedIndices, v.translation, v.rotation, v.scale)
  }

  /** The lists the walk appends to, and the vertex counter. */
  datatype Lists = Lists(
    points: seq<Vertex>, pointIndices: seq<nat>,
    root: seq<Vertex>, rootIndices: seq<nat>,
    nodes: seq<Vertex>, nodeIndices: seq<nat>,
    count: nat)

  /** The lists after walking the nodes of `order` from `s`: the root's box
      (when the walk starts at the root) goes to the root lists, every other
      box and its cube to the node lists, every leaf's points to the point lists. */
  ghost function Emit(s: Lists, ns: seq<Node>, voxels: seq<Voxel>, order: seq<nat>, withRoot: bool): Lists
    requires Below(order, |ns|) && Below(LeafObjects(ns, order), |voxels|) && (withRoot ==> 0 < |ns|)
  {
    var objs := LeafObjects(ns, order);
    Lists(
      s.points + PointVertices(voxels, objs), s.pointIndices + Counting(|s.points|, |objs|),
      s.root + (if withRoot then NodeCorners(ns[0]) else []),
      s.rootIndices + (if withRoot then CubeIndices(0) else []),
      s.nodes + Boxes(ns, order), s.nodeIndices + Cubes(|s.nodes|, NumBoxes(ns, order)),
      s.count + |objs|)
  }

  /** The buffer's visibility flipped when `flip` holds and kept otherwise;
      everything else about it unchanged. */
  twostate predicate Toggled(v: VertexBufferObject, flip: bool)
    reads v
  {
    && v.isHidden == (old(v.isHidden) != flip)
    && v.vertices == old(v.vertices) && v.indices == old(v.indices)
    && v.mode == old(v.mode) && v.isBuilt == old(v.isBuilt)
    && v.uploadedVertices == old(v.uploadedVertices) && v.uploadedIndices == old(v.uploadedIndices)
    && v.translation == old(v.translation) && v.rotation == old(v.rotation) && v.scale == old(v.scale)
  }

  class OctreeRenderer {
    var octree: Octree
    var width: nat
    var height: nat
    var numVertices: nat
    var keys: array<bool>
    /** The buffers by name: "Root", "Points" and "Nodes". */
    var objects: map<string, VertexBufferObject>
    /** Set once the window has been asked to close. */
    var closeRequested: bool

    /** The three named buffers exist and are distinct. */
    ghost predicate Ready()
      reads this
    {
      && "Root" in objects && "Points" in objects && "Nodes" in objects
      && objects["Root"] != objects["Points"] && objects["Root"] != objects["Nodes"]
      && objects["Points"] != objects["Nodes"]
      && keys.Length == NumKeys
    }

    /** Resets every key, then fills and uploads the buffers from the tree. */
    constructor(octree: Octree, width: nat, height: nat)
      requires octree.Valid() && octree.Holds()
      ensures this.octree == octree && this.width == width && this.height == height
      ensures fresh(keys) && keys.Length == NumKeys
      ensures forall i :: 0 <= i < NumKeys ==> !keys[i]
      ensures !closeRequested && Ready()
      ensures numVertices == |Objs(octree.nodes)|
      ensures Built(octree.nodes, octree.voxels)
    {
      this.octree := octree;
      this.width := width;
      this.height := height;
      numVertices := 0;
      closeRequested := false;
      objects := map[];
      var ks := new bool[NumKeys];
      for i := 0 to NumKeys
        invariant forall j :: 0 <= j < i ==> !ks[j]
      {
        ks[i] := false;
      }
      keys := ks;
      new;
      CreateVboVaoFromOctree();
    }

    /** What the buffers hold once the whole tree has been walked and uploaded:
        the lists of a walk of the whole tree, each buffer uploaded. */
    ghost predicate Built(ns: seq<Node>, voxels: seq<Voxel>)
      reads this, objects.Values
      requires WellFormed(ns, -1) && Stored(ns, |voxels|)
    {
      && "Root" in objects && "Points" in objects && "Nodes" in objects
      && var root, points, nodes := objects["Root"], objects["Points"], objects["Nodes"];
      && BuiltLists(ns, voxels, Contents(points, root, nodes), SettingsOf(root), SettingsOf(points), SettingsOf(nodes))
    }

    /** Appends the eight corners of a node's box. */
    method NodeToVertexList(n: Node, vbo: VertexBufferObject)
      modifies vbo
      ensures vbo.vertices == old(vbo.vertices) + NodeCorners(n)
      ensures vbo.indices == old(vbo.indices)
      ensures SettingsOf(vbo) == old(SettingsOf(vbo))
    {
      var c, h := n.center, n.halfsize;
      vbo.AddVertex(Vertex(c.x - h.x, c.y - h.y, c.z - h.z, 1.0, 1.0, 1.0, 0.2));
      vbo.AddVertex(Vertex(c.x - h.x, c.y + h.y, c.z - h.z, 1.0, 1.0, 1.0, 0.2));
      vbo.AddVertex(Vertex(c.x + h.x, c.y + h.y, c.z - h.z, 1.0, 1.0, 1.0, 0.2));
      vbo.AddVertex(Vertex(c.x + h.x, c.y - h.y, c.z - h.z, 1.0, 1.0, 1.0, 0.2));
      vbo.AddVertex(Vertex(c.x - h.x, c.y - h.y, c.z + h.z, 1.0, 1.0, 1.0, 0.2));
      vbo.AddVertex(Vertex(c.x - h.x, c.y + h.y, c.z + h.z, 1.0, 1.0, 1.0, 0.2));
      vbo.AddVertex(Vertex(c.x + h.x, c.y + h.y, c.z + h.z, 1.0, 1.0, 1.0, 0.2));
      vbo.AddVertex(Vertex(c.x + h.x, c.y - h.y, c.z + h.z, 1.0, 1.0, 1.0, 0.2));
    }

    /** Appends the 36 indices of the twelve triangles of a box whose
        corners start at `offset`. */
    method NodeToIndexList(offset: nat, vbo: VertexBufferObject)
      modifies vbo
      ensures vbo.indices == old(vbo.indices) + CubeIndices(offset)
      ensures vbo.vertices == old(vbo.vertices)
      ensures SettingsOf(vbo) == old(SettingsOf(vbo))
    {
      for k := 0 to 36
        invariant vbo.indices == old(vbo.indices) + CubeIndices(offset)[..k]
        invariant vbo.vertices == old(vbo.vertices) && SettingsOf(vbo) == old(SettingsOf(vbo))
      {
        CubePrefixStep(offset, k);
        vbo.AddIndex(offset + CubePattern(k));
      }
      assert CubeIndices(offset)[..36] == CubeIndices(offset);
    }

    /** The buffers' lists and the vertex counter. */
    ghost function Contents(points: VertexBufferObject, root: VertexBufferObject, nodes: VertexBufferObject): Lists
      reads this, points, root, nodes
    {
      Lists(points.vertices, points.indices, root.vertices, root.indices, nodes.vertices, nodes.indices, numVertices)
    }

    /** The fields a walk leaves alone. */
    ghost function Fixed(): (Octree, array<bool>, map<string, VertexBufferObject>, nat, nat, bool)
      reads this
    {
      (octree, keys, objects, width, height, closeRequested)
    }

    /** Walks the tree from `node`: its box goes to `root` (at offset 0) or to
        `nodes` (after the boxes already there); a split node then walks its
        children, a leaf appends one point per voxel. */
    method BuildBuffers(node: nat, points: VertexBufferObject, root: VertexBufferObject, nodes: VertexBufferObject)
      requires octree.Valid() && octree.Holds() && node < |octree.nodes|
      requires points != root && points != nodes && root != nodes
      modifies this, points, root, nodes
      decreases |octree.nodes| - node, 1
      ensures Fixed() == old(Fixed())
      ensures Below(PreOrder(octree.nodes, node), |octree.nodes|)
      ensures Below(LeafObjects(octree.nodes, PreOrder(octree.nodes, node)), |octree.voxels|)
      ensures Contents(points, root, nodes) ==
        Emit(old(Contents(points, root, nodes)), octree.nodes, octree.voxels, PreOrder(octree.nodes, node), node == 0)
      ensures SettingsOf(points) == old(SettingsOf(points)) && SettingsOf(root) == old(SettingsOf(root))
      ensures SettingsOf(nodes) == old(SettingsOf(nodes))
    {
      var ns := octree.nodes;
      ghost var voxels := octree.voxels;
      ghost var s0 := Contents(points, root, nodes);
      BuildBox(ns[node], points, root, nodes);
      ghost var s1 := Contents(points, root, nodes);
      if ns[node].isSplit {
        EmitSplit(s0, ns, voxels, node);
        BuildChildren(node, points, root, nodes);
      } else {
        EmitLeaf(s0, ns, voxels, node);
        BuildLeaf(node, points);
        assert Contents(points, root, nodes) == AddPoints(s1, voxels, Own(ns, node));
      }
    }

    /** A node's box: the root's goes to `root` at offset 0, any other node's
        to `nodes` after the boxes already there. */
    method BuildBox(n: Node, points: VertexBufferObject, root: VertexBufferObject, nodes: VertexBufferObject)
      requires points != root && points != nodes && root != nodes
      modifies root, nodes
      ensures Contents(points, root, nodes) == AddBoxOf(old(Contents(points, root, nodes)), n)
      ensures SettingsOf(root) == old(SettingsOf(root)) && SettingsOf(nodes) == old(SettingsOf(nodes))
    {
      if n.isRoot {
        NodeToVertexList(n, root);
        NodeToIndexList(0, root);
      } else {
        var i := nodes.GetNumVertices();
        NodeToVertexList(n, nodes);
        NodeToIndexList(i, nodes);
      }
    }

    /** Walks the children of a split node in sibling order. */
    method BuildChildren(node: nat, points: VertexBufferObject, root: VertexBufferObject, nodes: VertexBufferObject)
      requires octree.Valid() && octree.Holds() && node < |octree.nodes| && octree.nodes[node].isSplit
      requires points != root && points != nodes && root != nodes
      modifies this, points, root, nodes
      decreases |octree.nodes| - node, 0
      ensures Fixed() == old(Fixed())
      ensures Below(KidsUpTo(octree.nodes, node, 8), |octree.nodes|)
      ensures Below(LeafObjects(octree.nodes, KidsUpTo(octree.nodes, node, 8)), |octree.voxels|)
      ensures Contents(points, root, nodes) ==
        Emit(old(Contents(points, root, nodes)), octree.nodes, octree.voxels, KidsUpTo(octree.nodes, node, 8), false)
      ensures SettingsOf(points) == old(SettingsOf(points)) && SettingsOf(root) == old(SettingsOf(root))
      ensures SettingsOf(nodes) == old(SettingsOf(nodes))
    {
      var ns := octree.nodes;
      ghost var voxels := octree.voxels;
      ghost var s0 := Contents(points, root, nodes);
      NodeAt(ns, node, -1);
      EmitNone(s0, ns, voxels);
      // The source's do-while: the first child of a split node is never null.
      var child := ns[node].firstChild;
      var k := 0;
      while child != Null
        invariant 0 <= k <= 8
        invariant child == if k < 8 then Ref(Child(ns, node, k)) else Null
        invariant Fixed() == old(Fixed()) && octree.nodes == ns && octree.voxels == voxels
        invariant Below(KidsUpTo(ns, node, k), |ns|) && Below(LeafObjects(ns, KidsUpTo(ns, node, k)), |voxels|)
        invariant Contents(points, root, nodes) == Emit(s0, ns, voxels, KidsUpTo(ns, node, k), false)
        invariant SettingsOf(points) == old(SettingsOf(points)) && SettingsOf(root) == old(SettingsOf(root))
        invariant SettingsOf(nodes) == old(SettingsOf(nodes))
        decreases 8 - k
      {
        BuildBuffers(child.index, points, root, nodes);
        EmitAppend(s0, ns, voxels, KidsUpTo(ns, node, k), PreOrder(ns, child.index), false);
        ChildSibling(ns, node, k);
        child := ns[child.index].nextSibling;
        k := k + 1;
      }
      assert k == 8;
    }

    /** One point per voxel of a leaf, each with its own index. */
    method BuildLeaf(node: nat, points: VertexBufferObject)
      requires octree.Valid() && octree.Holds() && node < |octree.nodes| && !octree.nodes[node].isSplit
      modifies this, points
      ensures Fixed() == old(Fixed())
      ensures Below(Own(octree.nodes, node), |octree.voxels|)
      ensures points.vertices == old(points.vertices) + PointVertices(octree.voxels, Own(octree.nodes, node))
      ensures points.indices == old(points.indices) + Counting(|old(points.vertices)|, |Own(octree.nodes, node)|)
      ensures numVertices == old(numVertices) + |Own(octree.nodes, node)|
      ensures SettingsOf(points) == old(SettingsOf(points))
    {
      var ns := octree.nodes;
      var voxels := octree.voxels;
      NodeAt(ns, node, -1);
      var objs := ns[node].objects;
      assert Own(ns, node) == objs;
      ghost var s := Lists(points.vertices, points.indices, [], [], [], [], numVertices);
      for j := 0 to |objs|
        invariant Fixed() == old(Fixed()) && octree.nodes == ns && octree.voxels == voxels
        invariant Lists(points.vertices, points.indices, [], [], [], [], numVertices) == AddPoints(s, voxels, objs[..j])
        invariant SettingsOf(points) == old(SettingsOf(points))
      {
        var v := voxels[objs[j]];
        var p := Vertex(v.x as real, v.y as real, v.z as real, v.r as real / 255.0, v.g as real / 255.0, v.b as real / 255.0, 1.0);
        assert p == VoxelVertex(voxels[objs[j]]);
        PointsStep(s, voxels, objs, j);
        points.AddPoint(p);
        numVertices := numVertices + 1;
      }
      assert objs[..|objs|] == objs;
    }

    /** Creates the three buffers, fills them from a walk of the whole tree,
        uploads them, sets their rotation and files them by name. */
    method CreateVboVaoFromOctree()
      requires octree.Valid() && octree.Holds() && keys.Length == NumKeys
      modifies this
      ensures octree == old(octree) && keys == old(keys)
      ensures width == old(width) && height == old(height) && closeRequested == old(closeRequested)
      ensures Ready()
      ensures fresh(objects["Root"]) && fresh(objects["Points"]) && fresh(objects["Nodes"])
      ensures numVertices == old(numVertices) + |Objs(octree.nodes)|
      ensures Built(octree.nodes, octree.voxels)
    {
      var points, root, nodes := FillBuffers();
      objects := map["Root" := root, "Points" := points, "Nodes" := nodes];
    }

    /** The body of CreateVboVaoFromOctree up to filing the buffers by name. */
    method FillBuffers() returns (points: VertexBufferObject, root: VertexBufferObject, nodes: VertexBufferObject)
      requires octree.Valid() && octree.Holds()
      modifies this
      ensures Fixed() == old(Fixed())
      ensures fresh(points) && fresh(root) && fresh(nodes)
      ensures points != root && points != nodes && root != nodes
      ensures numVertices == old(numVertices) + |Objs(octree.nodes)|
      ensures BuiltLists(octree.nodes, octree.voxels, Contents(points, root, nodes),
        SettingsOf(root), SettingsOf(points), SettingsOf(nodes))
    {
      points := new VertexBufferObject(Points);
      root := new VertexBufferObject(LineStrip);
      nodes := new VertexBufferObject(LineStrip);
      ghost var ns, voxels := octree.nodes, octree.voxels;
      ghost var n0 := numVertices;
      BuildBuffers(0, points, root, nodes);
      ghost var c := Contents(points, root, nodes);
      EmitCount(n0, ns, voxels, c);
      Upload(points);
      Upload(root);
      Upload(nodes);
      BuiltFrom(ns, voxels, c, SettingsOf(root), SettingsOf(points), SettingsOf(nodes));
    }

    /** Uploads a new buffer and turns it by (0, 0, 5). */
    method Upload(v: VertexBufferObject)
      requires !v.isBuilt && !v.isHidden
      requires v.translation == Vec3(0.0, 0.0, 0.0) && v.scale == Vec3(1.0, 1.0, 1.0)
      modifies v
      ensures v.vertices == old(v.vertices) && v.indices == old(v.indices)
      ensures Uploaded(SettingsOf(v), old(v.mode), v.vertices, v.indices)
    {
      v.Build();
      v.SetRotation(Vec3(0.0, 0.0, 5.0));
    }

    /** A key event: Escape asks the window to close; a key code below 1024
        is recorded as held on a press and as released on a release; pressing
        1, 2 or 3 toggles the root box, the points or the node boxes. */
    method OnKey(key: int, action: int)
      requires Ready()
      modifies this, keys, objects.Values
      ensures octree == old(octree) && keys == old(keys) && objects == old(objects)
      ensures width == old(width) && height == old(height) && numVertices == old(numVertices)
      ensures closeRequested == (old(closeRequested) || key == KeyEscape)
      ensures keys[..] ==
        if 0 <= key < NumKeys && action == Press then old(keys[..])[key := true]
        else if 0 <= key < NumKeys && action == Release then old(keys[..])[key := false]
        else old(keys[..])
      ensures Toggled(objects["Root"], action == Press && key == Key1)
      ensures Toggled(objects["Points"], action == Press && key == Key2)
      ensures Toggled(objects["Nodes"], action == Press && key == Key3)
      ensures Ready()
    {
      if key == KeyEscape {
        closeRequested := true;
      }
      if 0 <= key < NumKeys {
        if action == Press {
          keys[key] := true;
          if key == Key1 {
            objects["Root"].HideToggle();
          } else if key == Key2 {
            objects["Points"].HideToggle();
          } else if key == Key3 {
            objects["Nodes"].HideToggle();
          }
        } else if action == Release {
          keys[key] := false;
        }
      }
    }
  }

  /** A buffer in the given mode holding the given lists, uploaded when
      neither list is empty, shown, turned by (0, 0, 5), neither moved nor scaled. */
  ghost predicate Uploaded(st: Settings, mode: DrawMode, vs: seq<Vertex>, ix: seq<nat>)
  {
    && st.mode == mode
    && st.isBuilt == (|vs| > 0 && |ix| > 0)
    && (st.isBuilt ==> st.uploadedVertices == vs && st.uploadedIndices == ix)
    && !st.isHidden
    && st.translation == Vec3(0.0, 0.0, 0.0) && st.rotation == Vec3(0.0, 0.0, 5.0) && st.scale == Vec3(1.0, 1.0, 1.0)
  }

  /** The lists of a walk of the whole tree (the counter aside), each buffer uploaded. */
  ghost predicate BuiltLists(ns: seq<Node>, voxels: seq<Voxel>, c: Lists, rs: Settings, ps: Settings, nds: Settings)
    requires WellFormed(ns, -1) && Stored(ns, |voxels|)
  {
    && c.(count := 0) == WalkAll(ns, voxels).(count := 0)
    && Uploaded(rs, LineStrip, c.root, c.rootIndices)
    && Uploaded(ps, Points, c.points, c.pointIndices)
    && Uploaded(nds, LineStrip, c.nodes, c.nodeIndices)
  }

  lemma BuiltFrom(ns: seq<Node>, voxels: seq<Voxel>, c: Lists, rs: Settings, ps: Settings, nds: Settings)
    requires WellFormed(ns, -1) && Stored(ns, |voxels|)
    requires c.(count := 0) == WalkAll(ns, voxels).(count := 0)
    requires Uploaded(rs, LineStrip, c.root, c.rootIndices)
    requires Uploaded(ps, Points, c.points, c.pointIndices)
    requires Uploaded(nds, LineStrip, c.nodes, c.nodeIndices)
    ensures BuiltLists(ns, voxels, c, rs, ps, nds)
  {
  }

  /** Empty lists and a zero count. */
  const NoLists := Lists([], [], [], [], [], [], 0)

  /** The lists a walk of the whole tree fills, starting from empty buffers. */
  ghost function WalkAll(ns: seq<Node>, voxels: seq<Voxel>): Lists
    requires WellFormed(ns, -1) && Stored(ns, |voxels|)
  {
    WalkBoxes(ns);
    LeafObjectsStored(ns, PreOrder(ns, 0), |voxels|);
    Emit(NoLists, ns, voxels, PreOrder(ns, 0), true)
  }

  /** After the whole walk the root buffer holds the root's box. */
  lemma WalkAllRoot(ns: seq<Node>, voxels: seq<Voxel>)
    requires WellFormed(ns, -1) && Stored(ns, |voxels|)
    ensures WalkAll(ns, voxels).root == NodeCorners(ns[0])
    ensures WalkAll(ns, voxels).rootIndices == CubeIndices(0)
  {
  }

  /** The node buffer holds one box of eight corners and 36 indices for every
      node but the root, each index naming one of the buffer's vertices. */
  lemma WalkAllNodes(ns: seq<Node>, voxels: seq<Voxel>)
    requires WellFormed(ns, -1) && Stored(ns, |voxels|)
    ensures |WalkAll(ns, voxels).nodes| == 8 * (|ns| - 1)
    ensures |WalkAll(ns, voxels).nodeIndices| == 36 * (|ns| - 1)
    ensures IndicesBelow(WalkAll(ns, voxels).nodeIndices, |WalkAll(ns, voxels).nodes|)
  {
    WalkBoxes(ns);
    var n := NumBoxes(ns, PreOrder(ns, 0));
    CubesBelow(0, n);
  }

  /** The point buffer holds one point per stored voxel, with indices 0, 1, 2, ...,
      and the count is the number of points. */
  lemma WalkAllCount(ns: seq<Node>, voxels: seq<Voxel>)
    requires WellFormed(ns, -1) && Stored(ns, |voxels|)
    ensures |WalkAll(ns, voxels).points| == |Objs(ns)| == WalkAll(ns, voxels).count
    ensures WalkAll(ns, voxels).pointIndices == Counting(0, |WalkAll(ns, voxels).points|)
  {
    WalkObjects(ns);
    var objs := LeafObjects(ns, PreOrder(ns, 0));
    assert |multiset(objs)| == |objs|;
  }

  /** The walk's lists do not depend on the counter it starts from, which
      goes up by one per stored voxel. */
  lemma EmitCount(n0: nat, ns: seq<Node>, voxels: seq<Voxel>, c: Lists)
    requires WellFormed(ns, -1) && Stored(ns, |voxels|)
    requires Below(PreOrder(ns, 0), |ns|) && Below(LeafObjects(ns, PreOrder(ns, 0)), |voxels|)
    requires c == Emit(Lists([], [], [], [], [], [], n0), ns, voxels, PreOrder(ns, 0), true)
    ensures c.(count := 0) == WalkAll(ns, voxels).(count := 0)
    ensures c.count == n0 + |Objs(ns)|
  {
    WalkAllCount(ns, voxels);
  }

  /** Which buffers an upload of the whole walk leaves built: always the root's;
      the nodes' when the tree has been subdivided; the points' when it stores a voxel. */
  lemma BuiltFlags(ns: seq<Node>, voxels: seq<Voxel>, c: Lists, rs: Settings, ps: Settings, nds: Settings)
    requires WellFormed(ns, -1) && Stored(ns, |voxels|)
    requires BuiltLists(ns, voxels, c, rs, ps, nds)
    ensures rs.isBuilt
    ensures nds.isBuilt <==> |ns| > 1
    ensures ps.isBuilt <==> |Objs(ns)| > 0
  {
    WalkAllRoot(ns, voxels);
    WalkAllNodes(ns, voxels);
    WalkAllCount(ns, voxels);
  }

  /** The points are those of the stored voxels, each as many times as it is
      stored, in walk order. */
  lemma WalkAllPoints(ns: seq<Node>, voxels: seq<Voxel>)
    requires WellFormed(ns, -1) && Stored(ns, |voxels|)
    ensures Below(PreOrder(ns, 0), |ns|) && Below(LeafObjects(ns, PreOrder(ns, 0)), |voxels|)
    ensures multiset(LeafObjects(ns, PreOrder(ns, 0))) == Objs(ns)
    ensures WalkAll(ns, voxels).points == PointVertices(voxels, LeafObjects(ns, PreOrder(ns, 0)))
  {
    WalkObjects(ns);
    LeafObjectsStored(ns, PreOrder(ns, 0), |voxels|);
  }

  /** A node's own box, in the root lists for the root and in the node lists otherwise. */
  ghost function AddBoxOf(s: Lists, n: Node): Lists
  {
    if n.isRoot then s.(root := s.root + NodeCorners(n), rootIndices := s.rootIndices + CubeIndices(0))
    else s.(nodes := s.nodes + NodeCorners(n), nodeIndices := s.nodeIndices + CubeIndices(|s.nodes|))
  }

  /** One point per voxel of `objs`, each with its own index. */
  ghost function AddPoints(s: Lists, voxels: seq<Voxel>, objs: seq<nat>): Lists
    requires Below(objs, |voxels|)
  {
    s.(points := s.points + PointVertices(voxels, objs),
       pointIndices := s.pointIndices + Counting(|s.points|, |objs|),
       count := s.count + |objs|)
  }

  /** The walk of a single node. */
  lemma WalkOne(ns: seq<Node>, j: nat)
    requires j < |ns|
    ensures Below([j], |ns|)
    ensures LeafObjects(ns, [j]) == Own(ns, j)
    ensures Boxes(ns, [j]) == if ns[j].isRoot then [] else NodeCorners(ns[j])
    ensures NumBoxes(ns, [j]) == if ns[j].isRoot then 0 else 1
  {
    assert [j][1..] == [];
    assert LeafObjects(ns, [j]) == Own(ns, j) + [];
    assert Boxes(ns, [j]) == (if ns[j].isRoot then [] else NodeCorners(ns[j])) + [];
  }

  /** Walking a single node emits its box, then its points when it is a leaf. */
  lemma EmitOne(s: Lists, ns: seq<Node>, voxels: seq<Voxel>, j: nat)
    requires j < |ns| && (ns[j].isRoot <==> j == 0) && Below(Own(ns, j), |voxels|)
    ensures Below([j], |ns|) && Below(LeafObjects(ns, [j]), |voxels|)
    ensures Emit(s, ns, voxels, [j], j == 0) == AddPoints(AddBoxOf(s, ns[j]), voxels, Own(ns, j))
  {
    WalkOne(ns, j);
    if j != 0 {
      assert Cubes(|s.nodes|, 1) == [] + CubeIndices(|s.nodes|);
    }
  }

  /** Index lists of n + m boxes, split after the first n. */
  lemma CubeListsAppend(ni: seq<nat>, base: nat, na: nat, nb: nat, n: nat, next: nat)
    requires n == na + nb && next == base + 8 * na
    ensures ni + Cubes(base, na) + Cubes(next, nb) == ni + Cubes(base, n)
  {
    CubesAppend(base, na, nb);
    AppendAssoc(ni, Cubes(base, na), Cubes(next, nb));
  }

  lemma AppendAssoc<T>(x: seq<T>, y: seq<T>, z: seq<T>)
    ensures x + y + z == x + (y + z)
  {
  }

  /** The point lists after two walks are those after the joint walk. */
  lemma PointListsAppend(pv: seq<Vertex>, pi: seq<nat>, voxels: seq<Voxel>, oa: seq<nat>, ob: seq<nat>)
    requires Below(oa, |voxels|) && Below(ob, |voxels|)
    ensures Below(oa + ob, |voxels|)
    ensures pv + PointVertices(voxels, oa) + PointVertices(voxels, ob) == pv + PointVertices(voxels, oa + ob)
    ensures pi + Counting(|pv|, |oa|) + Counting(|pv + PointVertices(voxels, oa)|, |ob|) == pi + Counting(|pv|, |oa + ob|)
  {
    PointVerticesAppend(voxels, oa, ob);
    CountingAppend(|pv|, |oa|, |ob|);
    AppendAssoc(pv, PointVertices(voxels, oa), PointVertices(voxels, ob));
    AppendAssoc(pi, Counting(|pv|, |oa|), Counting(|pv| + |oa|, |ob|));
  }

  /** The box lists after two walks are those after the joint walk. */
  lemma BoxListsAppend(nv: seq<Vertex>, ni: seq<nat>, ns: seq<Node>, a: seq<nat>, b: seq<nat>)
    requires Below(a, |ns|) && Below(b, |ns|)
    ensures Below(a + b, |ns|)
    ensures nv + Boxes(ns, a) + Boxes(ns, b) == nv + Boxes(ns, a + b)
    ensures ni + Cubes(|nv|, NumBoxes(ns, a)) + Cubes(|nv + Boxes(ns, a)|, NumBoxes(ns, b)) == ni + Cubes(|nv|, NumBoxes(ns, a + b))
  {
    WalkAppend(ns, a, b);
    AppendAssoc(nv, Boxes(ns, a), Boxes(ns, b));
    CubeListsAppend(ni, |nv|, NumBoxes(ns, a), NumBoxes(ns, b), NumBoxes(ns, a + b), |nv + Boxes(ns, a)|);
  }

  /** The walks below a node list nodes of the arena. */
  lemma WalkBelow(ns: seq<Node>, voxels: seq<Voxel>, i: nat)
    requires WellFormed(ns, -1) && Stored(ns, |voxels|) && i < |ns|
    ensures Below(PreOrder(ns, i), |ns|) && Below(LeafObjects(ns, PreOrder(ns, i)), |voxels|)
    ensures ns[i].isSplit ==> Below(KidsUpTo(ns, i, 8), |ns|) && Below(LeafObjects(ns, KidsUpTo(ns, i, 8)), |voxels|)
  {
    var p := PreOrder(ns, i);
    forall k | 0 <= k < |p| ensures p[k] < |ns| {
      assert p[k] in p;
    }
    LeafObjectsStored(ns, p, |voxels|);
    if ns[i].isSplit {
      var q := KidsUpTo(ns, i, 8);
      forall k | 0 <= k < |q| ensures q[k] < |ns| {
        assert q[k] in q;
      }
      LeafObjectsStored(ns, q, |voxels|);
    }
  }

  /** For a split node: its box, then its children's walks, is its walk. */
  lemma EmitSplit(s: Lists, ns: seq<Node>, voxels: seq<Voxel>, i: nat)
    requires WellFormed(ns, -1) && Stored(ns, |voxels|) && i < |ns| && ns[i].isSplit
    ensures Below(PreOrder(ns, i), |ns|) && Below(LeafObjects(ns, PreOrder(ns, i)), |voxels|)
    ensures Below(KidsUpTo(ns, i, 8), |ns|) && Below(LeafObjects(ns, KidsUpTo(ns, i, 8)), |voxels|)
    ensures Emit(AddBoxOf(s, ns[i]), ns, voxels, KidsUpTo(ns, i, 8), false) == Emit(s, ns, voxels, PreOrder(ns, i), i == 0)
  {
    WalkBelow(ns, voxels, i);
    NodeAt(ns, i, -1);
    assert Own(ns, i) == [];
    EmitOne(s, ns, voxels, i);
    assert AddPoints(AddBoxOf(s, ns[i]), voxels, []) == AddBoxOf(s, ns[i]);
    EmitAppend(s, ns, voxels, [i], KidsUpTo(ns, i, 8), i == 0);
  }

  /** For a leaf: its box, then its points, is its walk. */
  lemma EmitLeaf(s: Lists, ns: seq<Node>, voxels: seq<Voxel>, i: nat)
    requires WellFormed(ns, -1) && Stored(ns, |voxels|) && i < |ns| && !ns[i].isSplit
    ensures Below(PreOrder(ns, i), |ns|) && Below(LeafObjects(ns, PreOrder(ns, i)), |voxels|)
    ensures Below(Own(ns, i), |voxels|)
    ensures AddPoints(AddBoxOf(s, ns[i]), voxels, Own(ns, i)) == Emit(s, ns, voxels, PreOrder(ns, i), i == 0)
  {
    WalkBelow(ns, voxels, i);
    NodeAt(ns, i, -1);
    assert PreOrder(ns, i) == [i];
    EmitOne(s, ns, voxels, i);
  }

  /** Walking nothing emits nothing. */
  lemma EmitNone(s: Lists, ns: seq<Node>, voxels: seq<Voxel>)
    ensures Below([], |ns|) && Below(LeafObjects(ns, []), |voxels|)
    ensures Emit(s, ns, voxels, [], false) == s
  {
    assert LeafObjects(ns, []) == [] && Boxes(ns, []) == [] && NumBoxes(ns, []) == 0;
    assert Cubes(|s.nodes|, 0) == [];
  }

  /** Walking `a` and then `b` emits what walking `a + b` emits. */
  lemma EmitAppend(s: Lists, ns: seq<Node>, voxels: seq<Voxel>, a: seq<nat>, b: seq<nat>, withRoot: bool)
    requires Below(a, |ns|) && Below(b, |ns|) && (withRoot ==> 0 < |ns|)
    requires Below(LeafObjects(ns, a), |voxels|) && Below(LeafObjects(ns, b), |voxels|)
    ensures Below(a + b, |ns|) && Below(LeafObjects(ns, a + b), |voxels|)
    ensures Emit(Emit(s, ns, voxels, a, withRoot), ns, voxels, b, false) == Emit(s, ns, voxels, a + b, withRoot)
  {
    WalkAppend(ns, a, b);
    var oa, ob := LeafObjects(ns, a), LeafObjects(ns, b);
    PointListsAppend(s.points, s.pointIndices, voxels, oa, ob);
    BoxListsAppend(s.nodes, s.nodeIndices, ns, a, b);
    var l, r := Emit(Emit(s, ns, voxels, a, withRoot), ns, voxels, b, false), Emit(s, ns, voxels, a + b, withRoot);
    assert l.points == r.points && l.pointIndices == r.pointIndices;
    assert l.root == r.root && l.rootIndices == r.rootIndices;
    assert l.nodes == r.nodes && l.nodeIndices == r.nodeIndices;
    assert l.count == r.count;
  }

  /** One more point of a leaf. */
  lemma PointsStep(s: Lists, voxels: seq<Voxel>, objs: seq<nat>, j: nat)
    requires Below(objs, |voxels|) && j < |objs|
    ensures Below(objs[..j], |voxels|) && Below(objs[..j + 1], |voxels|)
    ensures var t := AddPoints(s, voxels, objs[..j]);
      AddPoints(s, voxels, objs[..j + 1]) ==
      t.(points := t.points + [VoxelVertex(voxels[objs[j]])], pointIndices := t.pointIndices + [|t.points|], count := t.count + 1)
  {
    var a := objs[..j];
    assert objs[..j + 1] == a + [objs[j]];
    assert PointVertices(voxels, a + [objs[j]]) == PointVertices(voxels, a) + [VoxelVertex(voxels[objs[j]])];
    assert Counting(|s.points|, j + 1) == Counting(|s.points|, j) + [|s.points| + j];
  }

  lemma CubePrefixStep(offset: nat, k: nat)
    requires k < 36
    ensures CubeIndices(offset)[..k + 1] == CubeIndices(offset)[..k] + [offset + CubePattern(k)]
  {
  }

  /** Child k's next sibling is child k + 1, and the last child has none. */
  lemma ChildSibling(ns: seq<Node>, i: nat, k: nat)
    requires WellFormed(ns, -1) && i < |ns| && ns[i].isSplit && k < 8
    ensures ns[Child(ns, i, k)].nextSibling == if k + 1 < 8 then Ref(Child(ns, i, k + 1)) else Null
  {
    NodeAt(ns, i, -1);
    var c := FirstChildIndex(ns, i);
    assert IsChild(ns[i], i, c, k, ns[c + k]);
  }
}
