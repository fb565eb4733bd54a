/** The textured quad object of 10/terrain/src/Object.cpp, a client of
    `Geometry` and `VertexBufferLayout`. `MakeTexturedQuad` adds four
    corners of the square [-1, 1]^2 at z = 0, joins them with two triangles,
    interleaves the buffer and describes it with the normal layout; `Bind`
    and `Render` become the GL calls they issue. Texture loading is recorded
    by the file name only. */
module Objects {
  import opened Common
  import opened Linear
  import opened Geometries
  import Layouts

  /** An object: its geometry, the layout describing its buffer, and the
      diffuse texture file last loaded into it. */
  datatype Object = Object(geometry: Geometry, layout: Option<Layouts.Layout>, diffuse: Option<string>)

  /** The GL work `Bind` and `Render` do. */
  datatype GLCall =
    | LayoutBind
    | TextureBind(slot: nat)
    | DrawElements(count: nat)

  /** Object::Object: nothing loaded yet. */
  const NewObject: Object := Object(Empty, None, None)

  /** Corner k of the quad, counter-clockwise from the lower left of the
      square [-1, 1]^2 at z = 0. */
  function Corner(k: nat): Vec3
    requires k < 4
  {
    match k
    case 0 => Vec3(-1.0, -1.0, 0.0)
    case 1 => Vec3(1.0, -1.0, 0.0)
    case 2 => Vec3(1.0, 1.0, 0.0)
    case _ => Vec3(-1.0, 1.0, 0.0)
  }

  /** The texture coordinate of corner k: the matching corner of the unit
      square. */
  function CornerTexCoord(k: nat): (real, real)
    requires k < 4
  {
    match k
    case 0 => (0.0, 0.0)
    case 1 => (1.0, 0.0)
    case 2 => (1.0, 1.0)
    case _ => (0.0, 1.0)
  }

  /** r holds g's vertices, unchanged in position and texture coordinate,
      followed by the four corners with their texture coordinates. */
  predicate CornersAppended(g: Geometry, r: Geometry)
    requires Parallel(g) && Parallel(r)
  {
    && VertexCount(r) == VertexCount(g) + 4
    && (forall i | 0 <= i < VertexCount(g) ::
          Triple(r.positions, i) == Triple(g.positions, i) && Pair(r.texCoords, i) == Pair(g.texCoords, i))
    && forall k | 0 <= k < 4 ::
         Triple(r.positions, VertexCount(g) + k) == Corner(k) && Pair(r.texCoords, VertexCount(g) + k) == CornerTexCoord(k)
  }

  /** One `AddVertex` call of MakeTexturedQuad: corner k goes after the
      vertices already there. */
  method AddCorner(g: Geometry, k: nat) returns (r: Geometry)
    requires Parallel(g) && k < 4
    ensures Parallel(r) && VertexCount(r) == VertexCount(g) + 1
    ensures Triple(r.positions, VertexCount(g)) == Corner(k) && Pair(r.texCoords, VertexCount(g)) == CornerTexCoord(k)
    ensures forall i | 0 <= i < VertexCount(g) ::
      Triple(r.positions, i) == Triple(g.positions, i) && Pair(r.texCoords, i) == Pair(g.texCoords, i)
    ensures r.indices == g.indices && r.buffer == g.buffer
  {
    var c, t := Corner(k), CornerTexCoord(k);
    r := AddVertex(g, c.x, c.y, c.z, t.0, t.1);
    forall i | 0 <= i < VertexCount(g)
      ensures Triple(r.positions, i) == Triple(g.positions, i) && Pair(r.texCoords, i) == Pair(g.texCoords, i)
    {
      AddVertexKeeps(g, c.x, c.y, c.z, t.0, t.1, i);
    }
  }

  /** The four `AddVertex` calls of MakeTexturedQuad: (-1,-1), (1,-1),
      (1,1), (-1,1) at z = 0. */
  method QuadVertices(g: Geometry) returns (r: Geometry)
    requires Parallel(g)
    ensures Parallel(r) && CornersAppended(g, r)
    ensures r.indices == g.indices && r.buffer == g.buffer
  {
    var g1 := AddCorner(g, 0);
    var g2 := AddCorner(g1, 1);
    var g3 := AddCorner(g2, 2);
    r := AddCorner(g3, 3);
  }

  /** The geometry `MakeTexturedQuad` builds before `Gen`: the four
      corners, then triangles (0, 1, 2) and (2, 3, 0). The indices are
      absolute, so they name the quad's corners only when the geometry
      started empty. The triangles change only normals and tangent frames,
      so the corners stay as added. */
  method QuadGeometry(g: Geometry, frame: TangentFrame) returns (r: Geometry)
    requires Parallel(g) && |g.positions| + 12 <= U32_MODULUS
    ensures Parallel(r) && CornersAppended(g, r)
    ensures r.indices == g.indices + [0, 1, 2, 2, 3, 0] && r.buffer == g.buffer
  {
    var v := QuadVertices(g);
    var t := Triangle(v, 0, 1, 2, frame);
    r := Triangle(t, 2, 3, 0, frame);
    TwoTriangles(g.indices);
  }

  /** One `MakeTriangle` call, seen only through its effect on the vertex
      data, the index list and the buffer. */
  method Triangle(g: Geometry, a: nat, b: nat, c: nat, frame: TangentFrame) returns (r: Geometry)
    requires Parallel(g) && |g.positions| <= U32_MODULUS
    requires a < VertexCount(g) && b < VertexCount(g) && c < VertexCount(g)
    ensures Parallel(r) && r.positions == g.positions && r.texCoords == g.texCoords
    ensures r.indices == g.indices + [a, b, c] && r.buffer == g.buffer
  {
    r := MakeTriangle(g, a, b, c, frame);
  }

  lemma TwoTriangles(s: seq<nat>)
    ensures s + [0, 1, 2] + [2, 3, 0] == s + [0, 1, 2, 2, 3, 0]
  {
  }

  /** Object::MakeTexturedQuad: build the quad, append its interleaved
      records with `Gen`, size the normal layout from the whole buffer and
      index list, and load the texture. */
  method MakeTexturedQuad(o: Object, fileName: string, frame: TangentFrame) returns (r: Object)
    requires Parallel(o.geometry) && |o.geometry.positions| + 12 <= U32_MODULUS
    ensures r.diffuse == Some(fileName)
    ensures Parallel(r.geometry) && CornersAppended(o.geometry, r.geometry)
    ensures r.geometry.indices == o.geometry.indices + [0, 1, 2, 2, 3, 0]
    ensures |r.geometry.buffer| == |o.geometry.buffer| + 14 * (VertexCount(o.geometry) + 4)
    ensures r.geometry.buffer[..|o.geometry.buffer|] == o.geometry.buffer
    ensures r.layout == Some(Layouts.NormalLayout(ToU32(|r.geometry.buffer|), ToU32(|r.geometry.indices|)))
  {
    var q := QuadGeometry(o.geometry, frame);
    var g := Gen(q);
    r := Object(g, Some(Layouts.NormalLayout(BufferDataSize(g), IndicesSize(g))), Some(fileName));
  }

  /** A fresh object after `MakeTexturedQuad` holds the four corners as
      vertices 0 .. 3, indices that all name them, 4 x 14 = 56 floats, a
      layout saying so, and rendering it draws 6 indices. */
  method FreshTexturedQuad(fileName: string, frame: TangentFrame) returns (r: Object)
    ensures |r.geometry.buffer| == 56 && r.geometry.indices == [0, 1, 2, 2, 3, 0]
    ensures Parallel(r.geometry) && VertexCount(r.geometry) == 4 && IndicesValid(r.geometry)
    ensures forall k | 0 <= k < 4 :: Triple(r.geometry.positions, k) == Corner(k) && Pair(r.geometry.texCoords, k) == CornerTexCoord(k)
    ensures r.layout == Some(Layouts.NormalLayout(56, 6))
    ensures Render(r) == [LayoutBind, TextureBind(0), DrawElements(6)]
  {
    r := MakeTexturedQuad(NewObject, fileName, frame);
  }

  /** Object::Bind: the vertex layout, then the diffuse texture at slot 0. */
  function Bind(o: Object): (calls: seq<GLCall>)
    ensures |calls| == 2 && calls[0] == LayoutBind && calls[1].TextureBind? && calls[1].slot == 0
  {
    [LayoutBind, TextureBind(0)]
  }

  /** Object::Render: `Bind`, then one draw of all the indices (not the
      triangle count). */
  function Render(o: Object): (calls: seq<GLCall>)
    ensures |calls| == 3 && calls[..2] == Bind(o) && calls[2] == DrawElements(IndicesSize(o.geometry))
    ensures |o.geometry.indices| < U32_MODULUS ==> calls[2].count == |o.geometry.indices|
  {
    Bind(o) + [DrawElements(IndicesSize(o.geometry))]
  }
}
