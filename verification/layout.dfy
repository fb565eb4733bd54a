/** The vertex attribute tables of cpp/10/shadows/src/VertexBufferLayout.cpp
    and of MeshMaker::Generate. The GL objects are left out; what is kept
    is what each attribute pointer says about the interleaved data. Strides
    and offsets are in bytes, four per float. */
module Layouts {
  import G = Geometries

  const FloatBytes: nat := 4
  const IndexBytes: nat := 4

  /** One glVertexAttribPointer call. */
  datatype Attribute = Attribute(index: nat, components: nat, normalized: bool, strideBytes: nat, offsetBytes: nat)

  /** The stride (in floats), the attributes described, the attribute
      arrays enabled, and the byte sizes handed to glBufferData. */
  datatype Layout = Layout(stride: nat, attributes: seq<Attribute>, enabled: set<nat>, vertexBytes: nat, indexBytes: nat)

  /** An attribute of `components` floats at float offset `offset` in
      records of `stride` floats. */
  function Float(index: nat, components: nat, normalized: bool, stride: nat, offset: nat): Attribute {
    Attribute(index, components, normalized, FloatBytes * stride, FloatBytes * offset)
  }

  /** The attributes are numbered 0, 1, ... in order, each begins where the
      previous ends, all share the stride, and together they fill it. */
  predicate Packed(l: Layout) {
    && |l.attributes| > 0
    && (forall i | 0 <= i < |l.attributes| :: l.attributes[i].index == i && l.attributes[i].strideBytes == FloatBytes * l.stride)
    && l.attributes[0].offsetBytes == 0
    && (forall i | 0 <= i < |l.attributes| - 1 ::
          l.attributes[i + 1].offsetBytes == l.attributes[i].offsetBytes + FloatBytes * l.attributes[i].components)
    && l.attributes[|l.attributes| - 1].offsetBytes + FloatBytes * l.attributes[|l.attributes| - 1].components
         == FloatBytes * l.stride
  }

  /** Every described attribute is enabled. */
  predicate AllEnabled(l: Layout) {
    forall i | 0 <= i < |l.attributes| :: l.attributes[i].index in l.enabled
  }

  /** VertexBufferLayout::CreatePositionBufferLayout: positions only. */
  function PositionLayout(vcount: nat, icount: nat): (l: Layout)
    ensures Packed(l) && AllEnabled(l) && l.stride == 3
    ensures l.vertexBytes == FloatBytes * vcount && l.indexBytes == IndexBytes * icount
  {
    Layout(3, [Float(0, 3, false, 3, 0)], {0}, vcount * FloatBytes, icount * IndexBytes)
  }

  /** VertexBufferLayout::CreateTextureBufferLayout: position and texture
      coordinate; the texture coordinate is flagged as normalised. */
  function TextureLayout(vcount: nat, icount: nat): (l: Layout)
    ensures Packed(l) && AllEnabled(l) && l.stride == 5
    ensures |l.attributes| == 2 && l.attributes[1].normalized && l.attributes[1].components == 2
    ensures l.vertexBytes == FloatBytes * vcount && l.indexBytes == IndexBytes * icount
  {
    Layout(5, [Float(0, 3, false, 5, 0), Float(1, 2, true, 5, 3)], {0, 1}, vcount * FloatBytes, icount * IndexBytes)
  }

  /** VertexBufferLayout::CreateNormalBufferLayout: position, normal,
      texture coordinate, tangent and bitangent. */
  function NormalLayout(vcount: nat, icount: nat): (l: Layout)
    ensures Packed(l) && AllEnabled(l) && l.stride == 14 && |l.attributes| == 5
    ensures l.vertexBytes == FloatBytes * vcount && l.indexBytes == IndexBytes * icount
  {
    Layout(14,
      [ Float(0, 3, false, 14, 0), Float(1, 3, false, 14, 3), Float(2, 2, false, 14, 6),
        Float(3, 3, false, 14, 8), Float(4, 3, false, 14, 11) ],
      {0, 1, 2, 3, 4}, vcount * FloatBytes, icount * IndexBytes)
  }

  /** MeshMaker::Generate: stride 8 with position, normal and texture
      coordinate, but array 1 is enabled twice and array 2 never. The vertex
      byte count it passes is |vertices| * sizeof(Vertex3TN), which depends
      on the platform, so it is a parameter. */
  function MeshMakerLayout(vertexBytes: nat, icount: nat): (l: Layout)
    ensures Packed(l) && l.stride == 8
    ensures l.enabled == {0, 1} && !AllEnabled(l)
  {
    Layout(8, [Float(0, 3, false, 8, 0), Float(1, 3, false, 8, 3), Float(2, 2, false, 8, 6)],
      {0, 1}, vertexBytes, icount * IndexBytes)
  }

  /** The floats of vertex i that the shader attribute `index` stands for:
      position, normal, texture coordinate, tangent, bitangent. */
  function Field(g: G.Geometry, i: nat, index: nat): seq<real>
    requires G.Parallel(g) && i < G.VertexCount(g) && index < 5
  {
    match index
    case 0 => var p := G.Triple(g.positions, i); [p.x, p.y, p.z]
    case 1 => var n := G.Triple(g.normals, i); [n.x, n.y, n.z]
    case 2 => var uv := G.Pair(g.texCoords, i); [uv.0, uv.1]
    case 3 => var t := G.Triple(g.tangents, i); [t.x, t.y, t.z]
    case _ => var b := G.Triple(g.bitangents, i); [b.x, b.y, b.z]
  }

  /** The normal-map layout describes the records Geometry::Gen writes:
      each attribute's components, read at its offset within vertex i's
      record, are exactly that vertex's field of the same number. */
  lemma NormalLayoutReadsGenRecords(g: G.Geometry, vcount: nat, icount: nat, i: nat, a: nat, c: nat)
    requires G.Parallel(g) && i < G.VertexCount(g)
    requires a < |NormalLayout(vcount, icount).attributes|
    requires c < NormalLayout(vcount, icount).attributes[a].components
    ensures var at := NormalLayout(vcount, icount).attributes[a];
      |Field(g, i, at.index)| == at.components
      && G.Record(g, i)[at.offsetBytes / FloatBytes + c] == Field(g, i, at.index)[c]
  {
  }
}
