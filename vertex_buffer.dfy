/** A vertex buffer object of the renderer: a vertex list and an index list
    built up on the host, uploaded once by Build and drawn in a fixed
    primitive mode unless hidden. The OpenGL objects themselves are not
    modelled; the upload is the pair of lists the buffer held at Build. */
module VertexBuffers {
  import opened OctreeNodes

  datatype Option<T> = None | Some(value: T)

  /** A vertex: position, then an RGBA colour. */
  datatype Vertex = Vertex(x: real, y: real, z: real, r: real, g: real, b: real, a: real)

  /** The two primitive modes the renderer uses (GL_POINTS, GL_LINE_STRIP). */
  datatype DrawMode = Points | LineStrip

  /** The draw call Draw issues: the mode and the number of indices. */
  datatype DrawCall = DrawCall(mode: DrawMode, count: nat)

  /** The indices 0, 1, ..., n - 1 shifted by `base`. */
  function Counting(base: nat, n: nat): (r: seq<nat>)
    ensures |r| == n
    ensures forall k :: 0 <= k < n ==> r[k] == base + k
  {
    seq(n, k requires 0 <= k < n => base + k)
  }

  /** Counting n + m from base is counting n, then m from base + n. */
  lemma CountingAppend(base: nat, n: nat, m: nat)
    ensures Counting(base, n + m) == Counting(base, n) + Counting(base + n, m)
  {
    var a, b := Counting(base, n), Counting(base + n, m);
    forall k | 0 <= k < n + m ensures Counting(base, n + m)[k] == (a + b)[k] {
      if k >= n {
        assert (a + b)[k] == b[k - n];
      }
    }
  }

  /** Every index names a vertex of the list. */
  predicate IndicesBelow(indices: seq<nat>, count: nat)
  {
    forall k :: 0 <= k < |indices| ==> indices[k] < count
  }

  class VertexBufferObject {
    var vertices: seq<Vertex>
    var indices: seq<nat>
    var mode: DrawMode
    var isHidden: bool
    var isBuilt: bool
    /** What the last successful Build handed to the graphics driver. */
    var uploadedVertices: seq<Vertex>
    var uploadedIndices: seq<nat>
    var translation: Vec3
    var rotation: Vec3
    var scale: Vec3

    /** A buffer made only of points: index k names vertex k. */
    ghost predicate PointList()
      reads this
    {
      indices == Counting(0, |vertices|)
    }

    constructor(mode: DrawMode)
      ensures this.mode == mode
      ensures vertices == [] && indices == []
      ensures !isBuilt && !isHidden
      ensures uploadedVertices == [] && uploadedIndices == []
      ensures translation == Vec3(0.0, 0.0, 0.0) && rotation == Vec3(0.0, 0.0, 0.0) && scale == Vec3(1.0, 1.0, 1.0)
      ensures PointList() && IndicesBelow(indices, |vertices|)
    {
      this.mode := mode;
      isBuilt := false;
      isHidden := false;
      translation := Vec3(0.0, 0.0, 0.0);
      rotation := Vec3(0.0, 0.0, 0.0);
      scale := Vec3(1.0, 1.0, 1.0);
      vertices := [];
      indices := [];
      uploadedVertices := [];
      uploadedIndices := [];
    }

    method AddVertex(v: Vertex)
      modifies this
      ensures vertices == old(vertices) + [v]
      ensures indices == old(indices)
      ensures mode == old(mode) && isHidden == old(isHidden) && isBuilt == old(isBuilt)
      ensures uploadedVertices == old(uploadedVertices) && uploadedIndices == old(uploadedIndices)
      ensures translation == old(translation) && rotation == old(rotation) && scale == old(scale)
      ensures old(IndicesBelow(indices, |vertices|)) ==> IndicesBelow(indices, |vertices|)
    {
      vertices := vertices + [v];
    }

    /** Appends a vertex together with an index naming it. */
    method AddPoint(v: Vertex)
      modifies this
      ensures vertices == old(vertices) + [v]
      ensures indices == old(indices) + [|old(vertices)|]
      ensures mode == old(mode) && isHidden == old(isHidden) && isBuilt == old(isBuilt)
      ensures uploadedVertices == old(uploadedVertices) && uploadedIndices == old(uploadedIndices)
      ensures translation == old(translation) && rotation == old(rotation) && scale == old(scale)
      ensures old(PointList()) ==> PointList()
      ensures old(IndicesBelow(indices, |vertices|)) ==> IndicesBelow(indices, |vertices|)
    {
      AddIndex(|vertices|);
      vertices := vertices + [v];
    }

    method AddIndex(i: nat)
      modifies this
      ensures indices == old(indices) + [i]
      ensures vertices == old(vertices)
      ensures mode == old(mode) && isHidden == old(isHidden) && isBuilt == old(isBuilt)
      ensures uploadedVertices == old(uploadedVertices) && uploadedIndices == old(uploadedIndices)
      ensures translation == old(translation) && rotation == old(rotation) && scale == old(scale)
    {
      indices := indices + [i];
    }

    /** Uploads both lists, unless one of them is empty: then nothing happens. */
    method Build()
      modifies this
      ensures vertices == old(vertices) && indices == old(indices)
      ensures mode == old(mode) && isHidden == old(isHidden)
      ensures translation == old(translation) && rotation == old(rotation) && scale == old(scale)
      ensures |vertices| == 0 || |indices| == 0 ==>
        isBuilt == old(isBuilt) && uploadedVertices == old(uploadedVertices) && uploadedIndices == old(uploadedIndices)
      ensures |vertices| > 0 && |indices| > 0 ==>
        isBuilt && uploadedVertices == vertices && uploadedIndices == indices
    {
      if |vertices| == 0 || |indices| == 0 {
        return;
      }
      uploadedVertices := vertices;
      uploadedIndices := indices;
      isBuilt := true;
    }

    /** The draw call issued, if any: none before a Build succeeded or while hidden. */
    method Draw() returns (call: Option<DrawCall>)
      ensures call.None? <==> !isBuilt || isHidden
      ensures call.Some? ==> call.value == DrawCall(mode, |indices|)
    {
      if !isBuilt || isHidden {
        return None;
      }
      call := Some(DrawCall(mode, |indices|));
    }

    method SetTranslation(t: Vec3)
      modifies this
      ensures translation == t
      ensures rotation == old(rotation) && scale == old(scale)
      ensures vertices == old(vertices) && indices == old(indices)
      ensures mode == old(mode) && isHidden == old(isHidden) && isBuilt == old(isBuilt)
      ensures uploadedVertices == old(uploadedVertices) && uploadedIndices == old(uploadedIndices)
    {
      translation := t;
    }

    method SetRotation(r: Vec3)
      modifies this
      ensures rotation == r
      ensures translation == old(translation) && scale == old(scale)
      ensures vertices == old(vertices) && indices == old(indices)
      ensures mode == old(mode) && isHidden == old(isHidden) && isBuilt == old(isBuilt)
      ensures uploadedVertices == old(uploadedVertices) && uploadedIndices == old(uploadedIndices)
    {
      rotation := r;
    }

    method SetScale(s: Vec3)
      modifies this
      ensures scale == s
      ensures translation == old(translation) && rotation == old(rotation)
      ensures vertices == old(vertices) && indices == old(indices)
      ensures mode == old(mode) && isHidden == old(isHidden) && isBuilt == old(isBuilt)
      ensures uploadedVertices == old(uploadedVertices) && uploadedIndices == old(uploadedIndices)
    {
      scale := s;
    }

    function GetNumVertices(): (n: nat)
      reads this
      ensures n == |vertices|
    {
      |vertices|
    }

    method Hide()
      modifies this
      ensures isHidden
      ensures vertices == old(vertices) && indices == old(indices)
      ensures mode == old(mode) && isBuilt == old(isBuilt)
      ensures uploadedVertices == old(uploadedVertices) && uploadedIndices == old(uploadedIndices)
      ensures translation == old(translation) && rotation == old(rotation) && scale == old(scale)
    {
      isHidden := true;
    }

    method Unhide()
      modifies this
      ensures !isHidden
      ensures vertices == old(vertices) && indices == old(indices)
      ensures mode == old(mode) && isBuilt == old(isBuilt)
      ensures uploadedVertices == old(uploadedVertices) && uploadedIndices == old(uploadedIndices)
      ensures translation == old(translation) && rotation == old(rotation) && scale == old(scale)
    {
      isHidden := false;
    }

    method HideToggle()
      modifies this
      ensures isHidden == !old(isHidden)
      ensures vertices == old(vertices) && indices == old(indices)
      ensures mode == old(mode) && isBuilt == old(isBuilt)
      ensures uploadedVertices == old(uploadedVertices) && uploadedIndices == old(uploadedIndices)
      ensures translation == old(translation) && rotation == old(rotation) && scale == old(scale)
    {
      isHidden := !isHidden;
    }

    function IsHidden(): (h: bool)
      reads this
      ensures h == isHidden
    {
      isHidden
    }
  }

}
