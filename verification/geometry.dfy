/** The CPU-side mesh builder of 9/shadows/src/Geometry.cpp: five parallel
    attribute arrays filled one vertex at a time, an index list, and the
    14-float interleaved buffer that Gen appends. Floats are idealised as
    `real`; `unsigned int` indices are naturals below 2^32. */
module Geometries {
  import opened Common
  import opened Linear

  datatype Geometry = Geometry(
    positions: seq<real>,
    texCoords: seq<real>,
    normals: seq<real>,
    tangents: seq<real>,
    bitangents: seq<real>,
    indices: seq<nat>,
    buffer: seq<real>)

  /** A default-constructed Geometry: everything empty. */
  const Empty: Geometry := Geometry([], [], [], [], [], [], [])

  /** The number of vertices, as `m_vertexPositions.size()/3`. */
  function VertexCount(g: Geometry): nat {
    |g.positions| / 3
  }

  /** Three floats per vertex for position, normal, tangent and bitangent,
      two for the texture coordinate. AddVertex keeps this. */
  predicate Parallel(g: Geometry) {
    && |g.positions| % 3 == 0
    && |g.texCoords| == 2 * VertexCount(g)
    && |g.normals| == |g.positions|
    && |g.tangents| == |g.positions|
    && |g.bitangents| == |g.positions|
  }

  /** Every index names a vertex. */
  predicate IndicesValid(g: Geometry) {
    forall k | 0 <= k < |g.indices| :: g.indices[k] < VertexCount(g)
  }

  /** The vector stored for vertex i in a three-float array. */
  function Triple(s: seq<real>, i: nat): Vec3
    requires 3 * i + 2 < |s|
  {
    Vec3(s[3 * i], s[3 * i + 1], s[3 * i + 2])
  }

  /** The pair stored for vertex i in a two-float array. */
  function Pair(s: seq<real>, i: nat): (real, real)
    requires 2 * i + 1 < |s|
  {
    (s[2 * i], s[2 * i + 1])
  }

  /** The normal, tangent and bitangent every new vertex starts with. */
  const Placeholder: Vec3 := Vec3(0.0, 0.0, 1.0)

  /** Geometry::AddVertex: the new vertex gets the next number, the given
      position and texture coordinate, and the placeholder for its normal,
      tangent and bitangent. Earlier vertices keep their data. */
  function AddVertex(g: Geometry, x: real, y: real, z: real, s: real, t: real): (r: Geometry)
    requires Parallel(g)
    ensures Parallel(r) && VertexCount(r) == VertexCount(g) + 1
    ensures var n := VertexCount(g);
      && Triple(r.positions, n) == Vec3(x, y, z) && Pair(r.texCoords, n) == (s, t)
      && Triple(r.normals, n) == Placeholder && Triple(r.tangents, n) == Placeholder
      && Triple(r.bitangents, n) == Placeholder
    ensures r.positions[..|g.positions|] == g.positions && r.texCoords[..|g.texCoords|] == g.texCoords
    ensures r.normals[..|g.normals|] == g.normals && r.tangents[..|g.tangents|] == g.tangents
    ensures r.bitangents[..|g.bitangents|] == g.bitangents
    ensures r.indices == g.indices && r.buffer == g.buffer
  {
    g.(positions := g.positions + [x, y, z],
       texCoords := g.texCoords + [s, t],
       normals := g.normals + [0.0, 0.0, 1.0],
       tangents := g.tangents + [0.0, 0.0, 1.0],
       bitangents := g.bitangents + [0.0, 0.0, 1.0])
  }

  /** Adding a vertex leaves the position and texture coordinate of every
      earlier vertex as they were. */
  lemma AddVertexKeeps(g: Geometry, x: real, y: real, z: real, s: real, t: real, i: nat)
    requires Parallel(g) && i < VertexCount(g)
    ensures 3 * i + 2 < |AddVertex(g, x, y, z, s, t).positions|
    ensures Triple(AddVertex(g, x, y, z, s, t).positions, i) == Triple(g.positions, i)
    ensures Pair(AddVertex(g, x, y, z, s, t).texCoords, i) == Pair(g.texCoords, i)
  {
    var r := AddVertex(g, x, y, z, s, t);
    assert r.positions[..|g.positions|] == g.positions;
    assert r.texCoords[..|g.texCoords|] == g.texCoords;
    assert r.positions[3 * i] == g.positions[3 * i];
    assert r.positions[3 * i + 1] == g.positions[3 * i + 1];
    assert r.positions[3 * i + 2] == g.positions[3 * i + 2];
    assert r.texCoords[2 * i] == g.texCoords[2 * i];
    assert r.texCoords[2 * i + 1] == g.texCoords[2 * i + 1];
  }

  /** Geometry::AddIndex as written: the index is appended when it is at
      most the vertex count (the `i >= 0` half always holds for an unsigned
      index), otherwise only an error message is printed. */
  function AddIndex(g: Geometry, i: nat): (r: Geometry)
    requires i < U32_MODULUS
    ensures i <= VertexCount(g) ==> r.indices == g.indices + [i]
    ensures i > VertexCount(g) ==> r.indices == g.indices
    ensures r.(indices := g.indices) == g
  {
    if i <= |g.positions| / 3 then g.(indices := g.indices + [i]) else g
  }

  /** The bound check lets through the one index that names no vertex: the
      vertex count itself. A geometry whose indices were all valid stops
      being so. */
  lemma AddIndexAdmitsVertexCount(g: Geometry)
    requires VertexCount(g) < U32_MODULUS
    ensures AddIndex(g, VertexCount(g)).indices == g.indices + [VertexCount(g)]
    ensures !IndicesValid(AddIndex(g, VertexCount(g)))
  {
    var r := AddIndex(g, VertexCount(g));
    assert r.indices[|g.indices|] == VertexCount(g);
  }

  /** AddIndex with the bound its error message intends: only indices of
      existing vertices are kept. */
  function AddIndexChecked(g: Geometry, i: nat): (r: Geometry)
    requires i < U32_MODULUS
    ensures r.(indices := g.indices) == g
    ensures IndicesValid(g) ==> IndicesValid(r)
    ensures i < VertexCount(g) <==> r.indices == g.indices + [i]
  {
    if i < |g.positions| / 3 then g.(indices := g.indices + [i]) else g
  }

  /** The 14 floats Gen writes for vertex i: position, normal, texture
      coordinate, tangent, bitangent. */
  function Record(g: Geometry, i: nat): (r: seq<real>)
    requires Parallel(g) && i < VertexCount(g)
    ensures |r| == 14
  {
    var p := Triple(g.positions, i);
    var n := Triple(g.normals, i);
    var uv := Pair(g.texCoords, i);
    var t := Triple(g.tangents, i);
    var b := Triple(g.bitangents, i);
    [p.x, p.y, p.z, n.x, n.y, n.z, uv.0, uv.1, t.x, t.y, t.z, b.x, b.y, b.z]
  }

  /** The records of the first k vertices, in order. */
  function Interleave(g: Geometry, k: nat): (r: seq<real>)
    requires Parallel(g) && k <= VertexCount(g)
    ensures |r| == 14 * k
  {
    if k == 0 then [] else Interleave(g, k - 1) + Record(g, k - 1)
  }

  /** Float j of vertex i's record sits at 14 i + j of the interleaved
      data. */
  lemma {:induction false} InterleaveAt(g: Geometry, k: nat, i: nat, j: nat)
    requires Parallel(g) && k <= VertexCount(g) && i < k && j < 14
    ensures Interleave(g, k)[14 * i + j] == Record(g, i)[j]
  {
    if i < k - 1 {
      InterleaveAt(g, k - 1, i, j);
    }
  }

  /** A vertex's floats lie inside each attribute array. */
  lemma VertexInRange(g: Geometry, i: nat)
    requires Parallel(g) && i < VertexCount(g)
    ensures i * 3 + 2 < |g.positions| && i * 3 + 2 < |g.normals|
    ensures i * 3 + 2 < |g.tangents| && i * 3 + 2 < |g.bitangents| && i * 2 + 1 < |g.texCoords|
  {
  }

  /** Vertex i's record, read array by array as Gen reads it. */
  lemma RecordReads(g: Geometry, i: nat)
    requires Parallel(g) && i < VertexCount(g)
    ensures i * 3 + 2 < |g.positions| && i * 3 + 2 < |g.normals|
    ensures i * 3 + 2 < |g.tangents| && i * 3 + 2 < |g.bitangents| && i * 2 + 1 < |g.texCoords|
    ensures Record(g, i)
        == [g.positions[i * 3 + 0], g.positions[i * 3 + 1], g.positions[i * 3 + 2],
            g.normals[i * 3 + 0], g.normals[i * 3 + 1], g.normals[i * 3 + 2],
            g.texCoords[i * 2 + 0], g.texCoords[i * 2 + 1],
            g.tangents[i * 3 + 0], g.tangents[i * 3 + 1], g.tangents[i * 3 + 2],
            g.bitangents[i * 3 + 0], g.bitangents[i * 3 + 1], g.bitangents[i * 3 + 2]]
  {
    VertexInRange(g, i);
  }

  /** Geometry::Gen: append every vertex's 14-float record to the buffer.
      Nothing is cleared, so a second Gen appends a second copy. The
      texture coordinate has its own counter, which always equals the
      vertex number. */
  method Gen(g: Geometry) returns (r: Geometry)
    requires Parallel(g)
    ensures r == g.(buffer := g.buffer + Interleave(g, VertexCount(g)))
    ensures forall i, j | 0 <= i < VertexCount(g) && 0 <= j < 14 :: r.buffer[|g.buffer| + 14 * i + j] == Record(g, i)[j]
  {
    var n := |g.positions| / 3;
    var buffer := g.buffer;
    var coordsPos := 0;
    var i := 0;
    while i < n
      invariant 0 <= i <= n && coordsPos == i
      invariant buffer == g.buffer + Interleave(g, i)
    {
      RecordReads(g, i);
      InterleaveStep(g, g.buffer, i);
      var record :=
        [g.positions[i * 3 + 0], g.positions[i * 3 + 1], g.positions[i * 3 + 2],
         g.normals[i * 3 + 0], g.normals[i * 3 + 1], g.normals[i * 3 + 2],
         g.texCoords[coordsPos * 2 + 0], g.texCoords[coordsPos * 2 + 1],
         g.tangents[i * 3 + 0], g.tangents[i * 3 + 1], g.tangents[i * 3 + 2],
         g.bitangents[i * 3 + 0], g.bitangents[i * 3 + 1], g.bitangents[i * 3 + 2]];
      buffer := buffer + record;
      coordsPos := coordsPos + 1;
      i := i + 1;
    }
    r := g.(buffer := buffer);
    AppendedRecords(g, g.buffer);
  }

  /** One more vertex appends its record to the interleaved data. */
  lemma InterleaveStep(g: Geometry, prefix: seq<real>, i: nat)
    requires Parallel(g) && i < VertexCount(g)
    ensures prefix + Interleave(g, i) + Record(g, i) == prefix + Interleave(g, i + 1)
  {
  }

  /** After a prefix, float j of vertex i's record sits 14 i + j past the
      prefix's end. */
  lemma AppendedRecords(g: Geometry, prefix: seq<real>)
    requires Parallel(g)
    ensures forall i, j | 0 <= i < VertexCount(g) && 0 <= j < 14 ::
      (prefix + Interleave(g, VertexCount(g)))[|prefix| + 14 * i + j] == Record(g, i)[j]
  {
    forall i, j | 0 <= i < VertexCount(g) && 0 <= j < 14
      ensures (prefix + Interleave(g, VertexCount(g)))[|prefix| + 14 * i + j] == Record(g, i)[j]
    {
      InterleaveAt(g, VertexCount(g), i, j);
    }
  }

  /** The tangent and bitangent MakeTriangle derives from the three
      positions and texture coordinates (the edge and UV-delta formula,
      then glm::normalize), left to the caller. */
  type TangentFrame = (Vec3, Vec3, Vec3, (real, real), (real, real), (real, real)) -> (Vec3, Vec3)

  /** s with vertex i's three floats replaced by v. */
  function SetTriple(s: seq<real>, i: nat, v: Vec3): (r: seq<real>)
    requires 3 * i + 2 < |s|
    ensures |r| == |s| && Triple(r, i) == v
    ensures forall k: nat | 3 * k + 2 < |s| && k != i :: Triple(r, k) == Triple(s, k)
  {
    s[3 * i := v.x][3 * i + 1 := v.y][3 * i + 2 := v.z]
  }

  /** Vertex k of r after a triangle (v0, v1, v2) was made in g: a corner of
      the triangle has the +z normal and the frame tb, any other vertex keeps
      its normal, tangent and bitangent. */
  predicate FrameAfterTriangle(g: Geometry, r: Geometry, k: nat, v0: nat, v1: nat, v2: nat, tb: (Vec3, Vec3))
    requires 3 * k + 2 < |g.normals| && 3 * k + 2 < |g.tangents| && 3 * k + 2 < |g.bitangents|
    requires 3 * k + 2 < |r.normals| && 3 * k + 2 < |r.tangents| && 3 * k + 2 < |r.bitangents|
  {
    if k == v0 || k == v1 || k == v2 then
      Triple(r.normals, k) == Placeholder && Triple(r.tangents, k) == tb.0 && Triple(r.bitangents, k) == tb.1
    else
      Triple(r.normals, k) == Triple(g.normals, k) && Triple(r.tangents, k) == Triple(g.tangents, k)
        && Triple(r.bitangents, k) == Triple(g.bitangents, k)
  }

  /** Geometry::MakeTriangle: append the three indices, reset the three
      vertices' normals to +z, and give all three the tangent frame computed
      from their positions and texture coordinates. The indices must name
      vertices: the source reads their data unchecked. */
  function MakeTriangle(g: Geometry, v0: nat, v1: nat, v2: nat, frame: TangentFrame): (r: Geometry)
    requires Parallel(g) && |g.positions| <= U32_MODULUS
    requires v0 < VertexCount(g) && v1 < VertexCount(g) && v2 < VertexCount(g)
    ensures Parallel(r) && VertexCount(r) == VertexCount(g)
    ensures r.indices == g.indices + [v0, v1, v2]
    ensures r.positions == g.positions && r.texCoords == g.texCoords && r.buffer == g.buffer
    ensures IndicesValid(g) ==> IndicesValid(r)
    ensures var tb := frame(Triple(g.positions, v0), Triple(g.positions, v1), Triple(g.positions, v2),
                            Pair(g.texCoords, v0), Pair(g.texCoords, v1), Pair(g.texCoords, v2));
      forall k | 0 <= k < VertexCount(g) :: FrameAfterTriangle(g, r, k, v0, v1, v2, tb)
  {
    var tb := frame(Triple(g.positions, v0), Triple(g.positions, v1), Triple(g.positions, v2),
                    Pair(g.texCoords, v0), Pair(g.texCoords, v1), Pair(g.texCoords, v2));
    var r := g.(indices := g.indices + [v0, v1, v2],
       normals := SetTriple(SetTriple(SetTriple(g.normals, v0, Placeholder), v1, Placeholder), v2, Placeholder),
       tangents := SetTriple(SetTriple(SetTriple(g.tangents, v0, tb.0), v1, tb.0), v2, tb.0),
       bitangents := SetTriple(SetTriple(SetTriple(g.bitangents, v0, tb.1), v1, tb.1), v2, tb.1));
    TriangleKeepsIndicesValid(g, r, v0, v1, v2);
    TriangleFrames(g, r, v0, v1, v2, tb);
    r
  }

  /** Appending a triangle of existing vertices keeps every index valid. */
  lemma TriangleKeepsIndicesValid(g: Geometry, r: Geometry, v0: nat, v1: nat, v2: nat)
    requires r.positions == g.positions && r.indices == g.indices + [v0, v1, v2]
    requires v0 < VertexCount(g) && v1 < VertexCount(g) && v2 < VertexCount(g)
    ensures IndicesValid(g) ==> IndicesValid(r)
  {
  }

  /** Writing the normal and the frame of the three corners changes those
      corners and no other vertex. */
  lemma TriangleFrames(g: Geometry, r: Geometry, v0: nat, v1: nat, v2: nat, tb: (Vec3, Vec3))
    requires Parallel(g) && v0 < VertexCount(g) && v1 < VertexCount(g) && v2 < VertexCount(g)
    requires r.normals == SetTriple(SetTriple(SetTriple(g.normals, v0, Placeholder), v1, Placeholder), v2, Placeholder)
    requires r.tangents == SetTriple(SetTriple(SetTriple(g.tangents, v0, tb.0), v1, tb.0), v2, tb.0)
    requires r.bitangents == SetTriple(SetTriple(SetTriple(g.bitangents, v0, tb.1), v1, tb.1), v2, tb.1)
    ensures forall k | 0 <= k < VertexCount(g) :: FrameAfterTriangle(g, r, k, v0, v1, v2, tb)
  {
  }

  /** Geometry::GetBufferDataSize: the float count, truncated to 32 bits. */
  function BufferDataSize(g: Geometry): (r: nat)
    ensures r < U32_MODULUS
    ensures |g.buffer| < U32_MODULUS ==> r == |g.buffer|
  {
    ToU32(|g.buffer|)
  }

  /** Geometry::GetBufferSizeInBytes: four bytes per float, truncated to 32
      bits. */
  function BufferSizeInBytes(g: Geometry): (r: nat)
    ensures r < U32_MODULUS
  {
    ToU32(|g.buffer| * 4)
  }

  /** Geometry::GetIndicesSize: the index count, truncated to 32 bits. */
  function IndicesSize(g: Geometry): (r: nat)
    ensures r < U32_MODULUS
    ensures |g.indices| < U32_MODULUS ==> r == |g.indices|
  {
    ToU32(|g.indices|)
  }

  /** The byte size is four times the float count while that fits in 32
      bits, and wraps (to zero at 2^30 floats) beyond. */
  lemma BytesAreFourPerFloat(g: Geometry)
    ensures |g.buffer| < U32_MODULUS / 4 ==> BufferSizeInBytes(g) == 4 * BufferDataSize(g)
    ensures |g.buffer| == U32_MODULUS / 4 ==> BufferSizeInBytes(g) == 0
  {
  }
}
