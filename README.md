# Octree voxel store and viewer, modelled in Dafny

This project models the octree library at the centre of Cuda-3d-reconstruction, together with the small pieces of bookkeeping around it:

- **The octree library** (`Liboctree`). A tree grows from one root box. Voxels are inserted in array order. Each voxel descends along its 3-bit octant code to a leaf and is appended there. A leaf whose list grows beyond the capacity is:
  - subdivided into eight half-size children, linked in a fixed sibling order;
  - rebalanced, which hands its voxels down to those children.

  The node counter goes up by eight per subdivision. Voxels outside the root box are skipped.
- **The viewer's tree flattening** (`Renderer/OctreeRenderer.cpp`). One depth-first walk fills three buffers:
  - the root's box;
  - the boxes of all other nodes, eight corners and 36 indices each;
  - one point per stored voxel.

  The viewer also keeps a key-state table, and keys 1, 2 and 3 toggle the three buffers' visibility.
- **The vertex buffer object** (`Renderer/VertexBufferObject.*`). It holds a vertex list and an index list, with built and hidden flags and guarded upload and draw.
- **The chroma keyer's key colour** (`Constructor/DistanceKeyer.cpp`): the integer per-channel mean of a frame.
- **The two command-line validators** (`Constructor/Constructor.cpp`, `Renderer/ConstructorRenderer.cpp`). Both read the options `getopt` returns, in order.
- **The field order of the archive `serialize` members** of the voxel, the vector, the node and the tree. Since one member both saves and loads, saving and then loading gives back the record.

Modelling choices:

- Voxel coordinates are `short` values and colours are `unsigned char` values, so each is an integer subtype of the exact range: `Voxels.Int16`, `Voxels.UInt8`.
- Node centres and half extents are exact reals. Halving and the quarter-size offsets are therefore exact.
- The tree's nodes form an arena: `Octrees.Octree.nodes` is a sequence, and every node pointer (first child, next sibling, parent) is an index into it.
- A subdivision of node `l` appends its eight children at consecutive indices `c .. c+7`. It links them `c -> c+1 -> ... -> c+7 -> null`, exactly as the source links its eight `new` nodes.
- A node's object list holds voxel indices, which stand for pointers into the voxel array.

The proof rests on the arena invariant `NodeArena.WellFormed` (with `Valid` and `Holds` of the `Octree` class):

- the root is node 0 and the only root;
- every other node is one of the eight children of a split parent that precedes it;
- every split node has its eight children after it, with the geometry, parent link, sibling link and location code (the compiled macro's value) of its subdivision;
- a split node holds no objects;
- a leaf has no first child;
- the node counter is `1 + 8 × (number of split nodes)`;
- every stored voxel lies inside its node's box.

The imperative source becomes imperative Dafny:

- `Traverse`, `Build`, `Subdivide`, `Rebalance`, `IdxToNodePointer` and `Add` are methods on an `Octree` class. Each is proved against a function on the arena (`Insert`, `Subdivided`, `Rebalanced`, `Added`).
- The lemmas of `NodeArena` prove the invariant, conservation of the stored voxels and the node-count arithmetic about those functions.
- The renderer's recursive `BuildBuffers` appends to three `VertexBufferObject` instances. It is proved to produce the lists of a pre-order walk (`TreeWalk.PreOrder`), and that walk is proved to list every node exactly once.
- The keyer and the two validators are while-loops. Each is proved against a specification function:
  - `Keying.Mean`;
  - `ConstructorOptions.Applied` with `ConstructorOptions.Verdict`;
  - `GetoptEvents.LastArg` with `RendererOptions.Verdict`.

External inputs become parameters:

- **`getopt`.** It becomes its sequence of returned options with their arguments (`GetoptEvents.Event`).
- **`atoi`.** It becomes a function parameter.
- **The downloaded frame.** It becomes a `Keying.Frame` value.
- **Shown text.** The text a parse prints becomes a `Message` value: the usage text, a missing option or an unknown option.

## Model

| member | source | states |
|---|---|---|
| `OctreeNodes.Node.BestIdx` | Liboctree/Octree.h:122-125 | the code lies in 0..7; bit 2 is set iff `v.x` is strictly greater than the centre's x, bit 1 likewise for y, bit 0 for z, so a coordinate on the centre plane selects the low side |
| `OctreeNodes.ContainsIsClosedBox` | Liboctree/Octree.h:155-163 | `Contains` is the inclusive test: it holds iff on every axis the point lies in the closed interval from centre minus half extent to centre plus half extent |
| `OctreeNodes.ChildCenterBits` | Liboctree/Octree.h:87-97 | the centre of child k is the parent centre moved by a quarter of the parent's extent on each axis: up where the axis's bit of k is set (x bit 2, y bit 1, z bit 0), down otherwise |
| `OctreeNodes.ChildOctant` | Liboctree/Octree.h:89-107 | for a box of positive extent, the octant code of child k's centre is k: a child's sibling position is the code that selects it |
| `OctreeNodes.ChildContains` | Liboctree/Octree.h:124-163 | a point inside a node is inside the child its octant code selects, boundary points included, so the children cover the parent's box |
| `OctreeNodes.ILocAsWrittenCollides` | Liboctree/Octree.h:7 | the location macro as the compiler reads it gives the first two children the same code 0 and the fifth child the code 8 |
| `OctreeNodes.ILocBits` | Liboctree/Octree.h:99-107 | the intended location macro returns a code below 8 whose bits 2, 1, 0 are the x, y, z flags |
| `OctreeNodes.ILocValues` | Liboctree/Octree.h:100-107 | with the intended macro the eight children, in creation order, get the codes 0 to 7 |
| `OctreeNodes.ILocAsWrittenValues` | Liboctree/Octree.h:7 | the compiled macro gives the eight flag triples of the subdivision the codes 0, 0, 0, 0, 8, 16, 16, 32 |
| `OctreeNodes.ChildLocValues` | Liboctree/Octree.h:99-107 | the code stored in child k (0, 0, 0, 0, 8, 16, 16, 32 in creation order lln … ruf) is the compiled macro applied to k's x, y and z flags |
| `NodeArena.SubdivideKid` | Liboctree/Octree.h:87-118 | every node that Subdivide appends is child k of the split node: centre as in `ChildCenterBits`, half the half extent, the split node as parent, the next child as next sibling (null for the eighth), the location code the compiled macro gives it (`ChildLoc(k)`: 0, 0, 0, 0, 8, 16, 16, 32), not root |
| `NodeArena.SubdivideLocsCollide` | Liboctree/Octree.h:99-107 | the first two children of every subdivision both store location code 0, and no child after the first stores its sibling position as its code |
| `NodeArena.SubdivideShape` | Liboctree/Octree.h:85-120 | Subdivide on a leaf of a well-formed arena adds exactly eight nodes, marks the leaf split with the first new node as first child, keeps its objects (pending the rebalance), leaves every other old node and every box unchanged, and makes the new nodes empty leaves |
| `NodeArena.SubdivideCounts` | Liboctree/Octree.h:85-120 | Subdivide adds one split node and changes no stored object |
| `NodeArena.RouteMembers` | Liboctree/Octree.h:147-150 | an object goes to child k iff it is in the node's list and its octant code is k |
| `NodeArena.DistributeAt` | Liboctree/Octree.h:146-150 | Rebalance's loop gives each child its old list followed by the objects routed to it, in their original list order, and changes no other node |
| `NodeArena.DistributeObjs` | Liboctree/Octree.h:146-150 | the loop adds the node's objects to the children without losing or duplicating any and splits nothing |
| `NodeArena.RebalanceAt` | Liboctree/Octree.h:144-153 | after Rebalance the node's list is empty, each child's list has gained the objects routed to it, and every other node is unchanged |
| `NodeArena.RebalanceCounts` | Liboctree/Octree.h:144-153 | Rebalance preserves the multiset of all stored objects and the number of split nodes |
| `NodeArena.RebalanceContained` | Liboctree/Octree.h:144-153 | when the children have the boxes Subdivide gives them, every voxel that Rebalance moves lies inside its new child's box |
| `NodeArena.AddedShape` | Liboctree/Octree.h:80-83 | Add on a leaf keeps the arena well formed, stores the object once more and splits nothing |
| `NodeArena.SplitLeaf` | Liboctree/Octree.cpp:36-37 | subdividing and then rebalancing a leaf keeps the arena well formed, keeps every object and box, adds eight nodes and one split node, empties the leaf and changes no other old node |
| `NodeArena.InsertSpec` | Liboctree/Octree.cpp:30-41 | inserting at a leaf keeps the arena well formed and stores the object once more; the leaf gains the object and nothing else changes unless the list outgrows the capacity, in which case exactly eight nodes and one split node are added and the leaf ends split and empty |
| `NodeArena.InsertStored` | Liboctree/Octree.cpp:30-41 | after an insertion every stored object is still an index into the voxel array |
| `NodeArena.SplitStored` | Liboctree/Octree.cpp:36-37 | subdividing and rebalancing a leaf leaves every stored object an index into the voxel array |
| `NodeArena.InsertContained` | Liboctree/Octree.cpp:30-41 | after inserting a voxel that lies in the leaf, every stored voxel lies inside its node's box |
| `NodeArena.LocateContains` | Liboctree/Octree.cpp:18-29 | descending from a node that contains a point ends at a leaf that contains it |
| `NodeArena.HolderOfCount` | Liboctree/Octree.cpp:44-59 | an object counted zero times is in no list; one counted once is in exactly one node's list |
| `Octrees.Octree.constructor` | Liboctree/Octree.cpp:5-11 | a new tree is a single root leaf with the given box, `isRoot` set and not split, a node counter of 1 and the given capacity (default 1000000), and it satisfies the tree invariant |
| `Octrees.Octree.GetNumNodes` | Liboctree/Octree.h:186 | the counter equals the number of nodes, which is one plus eight per split node |
| `Octrees.Octree.SetVoxels` | Liboctree/Octree.h:190 | installs the voxel array and changes nothing else; the invariant is kept, and containment holds again when no voxel is stored |
| `Octrees.Octree.SetNumVoxels` | Liboctree/Octree.h:191 | sets the voxel count and changes nothing else |
| `Octrees.Octree.AddObject` | Liboctree/Octree.h:80-83 | appends the object to the end of that node's list and changes nothing else |
| `Octrees.Octree.SubdivideNode` | Liboctree/Octree.h:85-120 | the nodes become `Subdivided(old nodes, l)`: the eight children lln … ruf appended and chained from l, each with the location code the compiled macro computes, with the properties of `SubdivideKid` and `SubdivideShape` |
| `Octrees.Octree.IdxToNodePointer` | Liboctree/Octree.h:127-142 | index 0 gives the first child; walking idx siblings on a split node gives child idx for idx < 8 and null for 8; on a split node the result for idx < 8 is a child of it, holding the location code the compiled macro gave child idx (`ChildLoc(idx)`), which is not idx itself for idx > 0 |
| `Octrees.Octree.RebalanceNode` | Liboctree/Octree.h:144-153 | the nodes become `Rebalanced(old nodes, i)`, whose effect `RebalanceAt` and `RebalanceCounts` give, and nothing else changes |
| `Octrees.Octree.Traverse` | Liboctree/Octree.cpp:18-42 | descends along the octant codes to the leaf `Locate` finds and performs `Insert` there; the counter grows by exactly 8 when that leaf overflows, by 0 otherwise; the voxel is stored once more, boxes are unchanged and the tree invariant holds again |
| `Octrees.Octree.InsertAtLeaf` | Liboctree/Octree.cpp:30-41 | appends the voxel to the leaf and subdivides and rebalances it exactly when its list exceeds the capacity, adding 8 to the counter; the invariant and containment are kept |
| `Octrees.Octree.Build` | Liboctree/Octree.cpp:44-59 | inserts exactly the voxels among the first numVoxels that the root box contains (the stored multiset grows by `InBound`), keeps the invariant and every box, and changes no node when no voxel is in bounds |
| `Octrees.InBoundCount` | Liboctree/Octree.cpp:49-57 | Build inserts each voxel index below numVoxels whose position the root contains exactly once, and no other index |
| `Octrees.PlacedOnce` | Liboctree/Octree.cpp:44-59 | a voxel stored once in a well-formed tree is in exactly one node, a leaf whose box contains it |
| `Octrees.PlacedNowhere` | Liboctree/Octree.cpp:44-59 | a voxel stored zero times is in no node's list |
| `Octrees.BuiltPlacement` | Liboctree/Octree.cpp:44-59 | after building an empty tree, each in-bound voxel is in exactly one leaf, whose box contains it, and every out-of-bound voxel is in no node |
| `Octrees.DescendChild` | Liboctree/Octree.cpp:20-28 | at a split node containing the point, the child its octant code selects follows it in the arena, contains the point and leads to the same leaf |
| `Octrees.LeafInsert` | Liboctree/Octree.cpp:30-41 | when Traverse reaches a leaf, the insertion keeps every invariant of the tree and the node count grows by eight exactly when the leaf overflows |
| `Octrees.ChildNodes` | Liboctree/Octree.h:89-117 | the eight nodes of a subdivision written out: centres lln, llf, lun, luf, rln, rlf, run, ruf, each linked to the next, the last one to null |
| `TreeWalk.RootDesc` | Liboctree/Octree.h:99-107 | following parent pointers from any node reaches the root |
| `TreeWalk.ChildParent` | Liboctree/Octree.h:99-117 | the eight children of a split node name it as their parent |
| `TreeWalk.KidsCount` | Renderer/OctreeRenderer.cpp:325-330 | the walks of the first k children list each node below those children exactly once |
| `TreeWalk.PreOrderCount` | Renderer/OctreeRenderer.cpp:323-331 | the walk from a node lists each node of its subtree exactly once and no other node |
| `TreeWalk.PreOrderAll` | Renderer/OctreeRenderer.cpp:309-351 | the walk from the root is a permutation of all the nodes of the tree |
| `RenderLists.NodeCornersAreBox` | Renderer/OctreeRenderer.cpp:276-286 | the eight appended vertices are the eight corners of the node's box, each once, white at opacity 0.2, in the source's order |
| `RenderLists.CubeIndicesRange` | Renderer/OctreeRenderer.cpp:288-307 | the 36 indices of a box all lie in offset .. offset + 7 and use every one of the eight corners |
| `RenderLists.CubeTriangles` | Renderer/OctreeRenderer.cpp:290-306 | each of the twelve index triples names three different corners on one face of the box |
| `RenderLists.CubesAppend` | Renderer/OctreeRenderer.cpp:318-320 | box indices laid after one another, each box offset by the vertex count before it, concatenate |
| `RenderLists.CubesBelow` | Renderer/OctreeRenderer.cpp:316-321 | every index of n consecutive boxes names one of their 8n vertices |
| `RenderLists.WalkAppend` | Renderer/OctreeRenderer.cpp:323-331 | what a walk emits along two parts in sequence is what the first part emits followed by what the second emits |
| `RenderLists.WalkBoxes` | Renderer/OctreeRenderer.cpp:311-321 | the walk over the whole tree emits one box for every node except the root |
| `RenderLists.WalkRemove` | Renderer/OctreeRenderer.cpp:332-350 | taking one node out of a walk removes exactly that node's own leaf voxels from what it emits |
| `RenderLists.LeafObjectsPerm` | Renderer/OctreeRenderer.cpp:323-350 | two walks visiting the same nodes emit the same voxels, with multiplicity |
| `RenderLists.WalkObjects` | Renderer/OctreeRenderer.cpp:332-350 | the walk from the root emits every stored voxel as many times as it is stored |
| `RenderLists.VoxelVertex` | Renderer/OctreeRenderer.cpp:337-344 | a voxel's point has the voxel's coordinates, colour channels in [0, 1] and opacity 1 |
| `RenderLists.PointVerticesAppend` | Renderer/OctreeRenderer.cpp:334-347 | the points of two object lists one after the other are the points of the joined list, so each leaf adds its points after those already emitted, in list order |
| `RenderLists.LeafObjectsStored` | Renderer/OctreeRenderer.cpp:334-347 | every voxel a walk emits is an index into the voxel array |
| `VertexBuffers.CountingAppend` | Renderer/VertexBufferObject.cpp:40-44 | counting n + m indices is counting n and then m further on, so successive AddPoints keep the indices 0, 1, 2, … |
| `VertexBuffers.VertexBufferObject.constructor` | Renderer/VertexBufferObject.cpp:8-26 | a new buffer has the given mode, empty lists, is neither built nor hidden, and has zero translation and rotation and unit scale |
| `VertexBuffers.VertexBufferObject.AddVertex` | Renderer/VertexBufferObject.cpp:35-38 | appends one vertex, leaves the index list and all flags unchanged |
| `VertexBuffers.VertexBufferObject.AddPoint` | Renderer/VertexBufferObject.cpp:40-44 | appends an index equal to the vertex count before the call, then the vertex; a buffer whose index k names vertex k stays so |
| `VertexBuffers.VertexBufferObject.AddIndex` | Renderer/VertexBufferObject.cpp:46-49 | appends one index and leaves the vertex list unchanged |
| `VertexBuffers.VertexBufferObject.Build` | Renderer/VertexBufferObject.cpp:51-70 | with either list empty nothing changes, the built flag included; otherwise both lists are uploaded and the buffer is built |
| `VertexBuffers.VertexBufferObject.Draw` | Renderer/VertexBufferObject.cpp:72-90 | draws nothing exactly when not built or hidden; otherwise draws the index count in the buffer's mode |
| `VertexBuffers.VertexBufferObject.SetTranslation` | Renderer/VertexBufferObject.cpp:92-97 | sets the translation, nothing else changes |
| `VertexBuffers.VertexBufferObject.SetRotation` | Renderer/VertexBufferObject.cpp:99-104 | sets the rotation, nothing else changes |
| `VertexBuffers.VertexBufferObject.SetScale` | Renderer/VertexBufferObject.cpp:106-111 | sets the scale, nothing else changes |
| `VertexBuffers.VertexBufferObject.Hide` | Renderer/VertexBufferObject.h:63 | the buffer is hidden afterwards, whatever it was before, so hiding twice is hiding once; lists and other flags unchanged |
| `VertexBuffers.VertexBufferObject.Unhide` | Renderer/VertexBufferObject.h:64 | the buffer is shown afterwards; lists and other flags unchanged |
| `VertexBuffers.VertexBufferObject.HideToggle` | Renderer/VertexBufferObject.h:65 | the hidden flag is negated, so toggling twice restores it; lists and other flags unchanged |
| `OctreeRendering.OctreeRenderer.constructor` | Renderer/OctreeRenderer.cpp:8-17 | all 1024 key states start released, the vertex counter ends equal to the number of stored voxels, and the three named buffers hold the uploaded lists of the whole walk |
| `OctreeRendering.OctreeRenderer.NodeToVertexList` | Renderer/OctreeRenderer.cpp:276-286 | appends exactly the eight corners of the node's box and no index |
| `OctreeRendering.OctreeRenderer.NodeToIndexList` | Renderer/OctreeRenderer.cpp:288-307 | appends exactly the 36 indices of the box at the given offset and no vertex |
| `OctreeRendering.OctreeRenderer.BuildBuffers` | Renderer/OctreeRenderer.cpp:309-351 | the three buffers and the counter grow by what the pre-order walk from the node emits: the root's box to the root buffer at offset 0, every other box to the node buffer at its vertex count, one point per leaf voxel, the counter by one per point |
| `OctreeRendering.OctreeRenderer.BuildBox` | Renderer/OctreeRenderer.cpp:311-321 | the root's box goes to the root buffer at offset 0, any other box to the node buffer at the offset of its current vertex count |
| `OctreeRendering.OctreeRenderer.BuildChildren` | Renderer/OctreeRenderer.cpp:323-331 | a split node's children are walked in sibling order, first to eighth |
| `OctreeRendering.OctreeRenderer.BuildLeaf` | Renderer/OctreeRenderer.cpp:332-350 | a leaf adds one point per object in list order, each with its own index, and the counter grows by the number of objects |
| `OctreeRendering.OctreeRenderer.FillBuffers` | Renderer/OctreeRenderer.cpp:357-370 | three fresh, distinct buffers are filled by the walk of the whole tree and uploaded; the counter grows by the number of stored voxels |
| `OctreeRendering.OctreeRenderer.Upload` | Renderer/OctreeRenderer.cpp:364-370 | a new buffer is built exactly when both of its lists are non-empty and is turned by (0, 0, 5) |
| `OctreeRendering.OctreeRenderer.CreateVboVaoFromOctree` | Renderer/OctreeRenderer.cpp:353-375 | the buffers filed as "Root", "Points" and "Nodes" are three new buffers holding the uploaded lists of the whole walk |
| `OctreeRendering.OctreeRenderer.OnKey` | Renderer/OctreeRenderer.cpp:385-417 | Escape requests closing; for 0 ≤ key < 1024 a press marks the key held and a release marks it free, every other entry and every other key is untouched; a press of 1, 2 or 3 toggles the root, points or nodes buffer and changes no other buffer |
| `OctreeRendering.WalkAllRoot` | Renderer/OctreeRenderer.cpp:311-315 | the root buffer holds the root's eight corners and its 36 indices at offset 0 |
| `OctreeRendering.WalkAllNodes` | Renderer/OctreeRenderer.cpp:316-321 | the node buffer holds 8 vertices and 36 indices per non-root node, and every index is below its vertex count |
| `OctreeRendering.WalkAllCount` | Renderer/OctreeRenderer.cpp:332-350 | the point buffer holds one point per stored voxel with indices 0, 1, 2, …, and the counter equals their number |
| `OctreeRendering.WalkAllPoints` | Renderer/OctreeRenderer.cpp:334-347 | the points are those of the stored voxels, each as often as it is stored, in walk order |
| `OctreeRendering.EmitCount` | Renderer/OctreeRenderer.cpp:348 | the walk's lists do not depend on the counter's start, which grows by the number of stored voxels |
| `OctreeRendering.BuiltFlags` | Renderer/OctreeRenderer.cpp:364-366 | after the upload the root buffer is built, the node buffer iff the tree was subdivided, the point buffer iff a voxel is stored |
| `Keying.DistanceKeyer.constructor` | Constructor/DistanceKeyer.cpp:8-11 | a new keyer has no key colour |
| `Keying.DistanceKeyer.FindKeyColor` | Constructor/DistanceKeyer.cpp:17-46 | stores, for each channel c, the integer mean of channel c over all pixels as component c (no reordering), each in 0..255, and sets the key-colour flag |
| `Keying.RowSum` | Constructor/DistanceKeyer.cpp:29-34 | a row's channel sum is at most 255 per pixel |
| `Keying.GridSumBound` | Constructor/DistanceKeyer.cpp:25-35 | a frame's channel sum is at most 255 per pixel |
| `Keying.MeanRange` | Constructor/DistanceKeyer.cpp:37-39 | the key colour component of every channel lies in 0..255 |
| `Keying.MeanUniform` | Constructor/DistanceKeyer.cpp:22-39 | a frame of one colour has that colour as its key colour |
| `GetoptEvents.LastArg` | Constructor/Constructor.cpp:39-56 | there is a last argument of option c iff c occurs, and it is the argument of an occurrence of c |
| `GetoptEvents.LastArgAppend` | Renderer/ConstructorRenderer.cpp:39-42 | a later occurrence of an option overrides an earlier one: the last occurrence wins |
| `GetoptEvents.FirstOutside` | Constructor/Constructor.cpp:34-75 | the parse continues over every option before this position and stops at the one there, if any |
| `ConstructorOptions.ToUnsigned` | Constructor/Constructor.cpp:41 | the conversion of `atoi`'s `int` to `unsigned int` is below 2^32 and keeps every value already in range |
| `ConstructorOptions.Applied` | Constructor/Constructor.cpp:39-68 | the flags i, s and m only ever turn their settings on, and a setting whose option does not occur keeps its value |
| `ConstructorOptions.AppliedOne` | Constructor/Constructor.cpp:39-68 | the effect of one option, case by case: n, d and o set their field to the argument, i, s and m turn their flag on, others change nothing |
| `ConstructorOptions.AppliedAppend` | Constructor/Constructor.cpp:39-56 | applying two runs of options one after the other is applying them together, so the last value of a repeated option wins |
| `ConstructorOptions.Verdict` | Constructor/Constructor.cpp:29-104 | nothing is reported iff every option is one of n, d, o, i, s, m and n, d and o all occur |
| `ConstructorOptions.Constructor.constructor` | Constructor/Settings.h:17-22 | the three flags start off |
| `ConstructorOptions.Constructor.ParseArguments` | Constructor/Constructor.cpp:29-104 | the settings reflect exactly the options before the first h or unknown option; the message is the help text, the unknown option or the first missing one of n, d, o, in that order; the result is true iff no message is shown |
| `RendererOptions.Verdict` | Renderer/ConstructorRenderer.cpp:29-64 | the parse returns normally iff there is at least one option and every option is i |
| `RendererOptions.ConstructorRenderer.ParseArguments` | Renderer/ConstructorRenderer.cpp:29-64 | the input file is the last i before the first other option (unchanged if none); the graceful exception is raised exactly when the usage text is shown, for h, any other option, or a missing i |
| `RendererOptions.LastOfInputs` | Renderer/ConstructorRenderer.cpp:39-42 | when the parse stops at k, the last i recorded is the one just before k |
| `Archives.VoxelRoundTrip` | Liboctree/VisibleVoxel.h:9-18 | loading the six values X, Y, Z, R, G, B a voxel saves gives the voxel back and leaves the rest of the stream |
| `Archives.VoxelLoadSaved` | Liboctree/VisibleVoxel.h:9-18 | whatever loads as a voxel is that voxel's six saved values followed by the rest |
| `Archives.VoxelTruncated` | Liboctree/VisibleVoxel.h:9-18 | a voxel record cut short does not load |
| `Archives.Vec3RoundTrip` | Liboctree/Octree.h:20-26 | loading the x, y, z a vector saves gives the vector back |
| `Archives.Vec3LoadSaved` | Liboctree/Octree.h:20-26 | whatever loads as a vector is its saved form followed by the rest |
| `Archives.NodeRoundTrip` | Liboctree/Octree.h:45-57 | loading the thirteen values a node saves (centre, half extent, next sibling, parent, first child, objects, location, root flag, split flag) gives the node back |
| `Archives.NodeLoadSaved` | Liboctree/Octree.h:45-57 | whatever loads as a node is its saved form followed by the rest |
| `Archives.NodeTruncated` | Liboctree/Octree.h:45-57 | a node record cut short does not load |
| `Archives.OctreeRoundTrip` | Liboctree/Octree.h:193-201 | loading what a tree saves (voxel array, root, capacity, voxel count, node count) gives its three counters back |
| `Archives.OctreeLoadSaved` | Liboctree/Octree.h:193-201 | whatever loads as a tree header is its saved form followed by the rest |

## Left out

- OpenMP: `Build` and `Traverse` run their `parallel`, `single` and `task` regions sequentially, one voxel after another. The unsynchronised shared updates of the parallel version are not behaviour this model reproduces.
- Floating point: centres, half extents and vertex colours are exact reals, so `glm::vec3` rounding and the `float(R) / 255` conversion are not modelled.
- Integer widths: the node counter, the voxel count, the renderer's vertex counter and vertex-buffer indices are unbounded naturals; the 32-bit wrap-around of these `unsigned int` counters is not modelled.
- Keying.DistanceKeyer.FindKeyColor: requires a non-empty frame (rows × cols > 0), on which the source divides its sums by zero, and requires the channel sums to fit a C++ `int` (255 × rows × cols ≤ 2^31 − 1); the source overflows its signed accumulators beyond that, which is undefined behaviour in C++.
- Pointers: nodes live in an arena and pointers are indices, so aliasing, allocation and the recursive destructors are not modelled; the children of one subdivision occupy consecutive arena slots.
- Node location codes: every child stores the code the compiled macro gives it (0, 0, 0, 0, 8, 16, 16, 32, see Findings); the evidently intended octant code is defined and proved about (`ILoc`, `ILocBits`, `ILocValues`) but not stored, since nothing in the program reads the code back except the archive.
- Archives: only the field order of the `serialize` members is modelled, over an abstract stream of typed values; the boost byte format, its object tracking of node pointers and the compressor and decompressor that drive it are not.
- The archive round trip of a whole tree restores its three counters; re-linking the two pointers to the saved node and voxel graphs belongs to boost's tracking and is not modelled.
- The viewer's window, GLFW callbacks, shaders, camera, render loop and the OpenGL calls inside the vertex buffer are not modelled; an upload is the pair of lists held at `Build`, and `Draw` returns the draw call it would issue.
- `NodeToIndexList` is written as a loop over the 36-entry corner pattern rather than the source's 36 unrolled calls; the index list it appends is the same.
- The `do … while` over a split node's children is a `while` loop: the first child of a split node is never null, so both run the same iterations.
- The renderer's `std::map` of buffers is a `map` from names to buffer objects; `operator[]`'s insertion of a missing name never happens, since the three names are filed once at construction.
- The `Octree` getters `GetRoot`, `GetNumVoxels` and `GetVoxels` are direct field reads of `nodes[0]`, `numVoxels` and `voxels` and have no separate members; the vertex buffer's `GetNumVertices` and `IsHidden` are one-line reads of the vertex count and the hidden flag, kept as helpers without a property of their own.
- Octrees.Octree.constructor: the voxel array and voxel count, which the source constructor leaves uninitialised until `SetVoxels` and `SetNumVoxels`, start as the empty array and zero.
- The keyer's threshold and tolerance setters and getters, its matte computation on the graphics card and the frame download are not modelled; its other fields, which the source leaves uninitialised, start at zero.
- The validators' printed text is a `Message` value; the text itself, `Settings::Print`, `getopt`'s scanning of `argv` and `atoi` are not modelled (`atoi` is a parameter).
- The fields of the command-line settings that the source leaves uninitialised (camera count, paths) start at zero and empty strings.
- The viewer's settings header is not part of this model; its input file is a plain string field of `ConstructorRenderer`.
- Camera calibration, projection, the reconstruction kernels and the processor's frame loop are not modelled.

## Findings

| source | as written | input that shows it | evidently intended | confidence | as-written member | corrected member |
|---|---|---|---|---|---|---|
| Liboctree/Octree.h:7 | `iLoc(x, y, z)` expands to `x << 2 + y << 1 + z << 0`, which C++ parses as `((x << (2 + y)) << (1 + z)) << 0` | `iLoc(0, 0, 0) == iLoc(0, 0, 1) == 0` and `iLoc(1, 0, 0) == 8` | `(x << 2) + (y << 1) + z`, the octant code, so child k gets location k | high, not executed | `OctreeNodes.ILocAsWrittenCollides` | `OctreeNodes.ILocValues` |
