/** The vertex, shading-vertex and topology types shared by the software
    rasterizer, and the rasterizer's mesh record. */
module Mesh {
  import opened Geometry

  /** A vertex index as stored in the mesh's `uint32_t` index buffer. */
  type U32 = i: int | 0 <= i < 0x1_0000_0000

  /** A model-space input vertex. */
  datatype Vertex = Vertex(position: Vec3, uv: Vec2, normal: Vec3, tangent: Vec3)

  /** A transformed vertex: `position` holds NDC x, y, z after the perspective
      divide and the undivided clip-space w; `color` is never filled in by the
      rasterizer and stays at its default. */
  datatype VertexOut = VertexOut(
    position: Vec4,
    color: Color,
    uv: Vec2,
    normal: Vec3,
    tangent: Vec3,
    viewDirection: Vec3)

  datatype PrimitiveTopology = TriangleList | TriangleStrip

  /** The rasterizer's mesh: input vertices, index buffer and topology.
      The per-frame `vertices_out` cache is the result of the vertex
      transformation and is passed around explicitly instead of stored. */
  datatype MeshRast = MeshRast(
    vertices: seq<Vertex>,
    indices: seq<U32>,
    primitiveTopology: PrimitiveTopology)

  /** Every index names an existing vertex. The source never checks this: an
      out-of-range index reads past `vertices_out`. */
  predicate IndicesInRange(indices: seq<U32>, vertexCount: nat) {
    forall k :: 0 <= k < |indices| ==> indices[k] < vertexCount
  }
}
