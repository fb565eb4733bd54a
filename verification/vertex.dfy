/** The vertex records of 9/shadows/include/Vertex.hpp. Float comparison
    is idealised as equality of reals (no NaN, no signed zero). */
module Vertices {
  import opened Linear

  /** The empty base struct IVertex. */
  datatype IVertex = IVertex

  /** A 2D position. */
  datatype Vertex2 = Vertex2(x: real, y: real)

  /** A position, a normal and a texture coordinate. */
  datatype Vertex3TN = Vertex3TN(x: real, y: real, z: real, nx: real, ny: real, nz: real, s: real, t: real)

  /** IVertex::operator==: no two vertices are ever equal through the base
      class, not even a vertex and itself. */
  function IVertexEquals(a: IVertex, b: IVertex): (r: bool)
    ensures !r
    ensures r != (a == b)
  {
    false
  }

  /** Vertex2::operator==: equal exactly when both coordinates are. */
  function Vertex2Equals(a: Vertex2, b: Vertex2): (r: bool)
    ensures r <==> a == b
  {
    a.x == b.x && a.y == b.y
  }

  /** Vertex3TN::operator==: equal exactly when all eight fields are. */
  function Vertex3TNEquals(a: Vertex3TN, b: Vertex3TN): (r: bool)
    ensures r <==> a == b
  {
    a.x == b.x && a.y == b.y && a.z == b.z && a.s == b.s && a.t == b.t
      && a.nx == b.nx && a.ny == b.ny && a.nz == b.nz
  }

  /** The five-argument constructor: the normal is not initialised, so its
      indeterminate value is a parameter. */
  function NewVertex3TN(x: real, y: real, z: real, s: real, t: real, indeterminateNormal: Vec3): (v: Vertex3TN)
    ensures v.x == x && v.y == y && v.z == z && v.s == s && v.t == t
    ensures Vec3(v.nx, v.ny, v.nz) == indeterminateNormal
  {
    Vertex3TN(x, y, z, indeterminateNormal.x, indeterminateNormal.y, indeterminateNormal.z, s, t)
  }

  /** The eight-argument constructor. */
  function NewVertex3TNWithNormal(x: real, y: real, z: real, nx: real, ny: real, nz: real, s: real, t: real): (v: Vertex3TN)
    ensures Floats(v) == [x, y, z, nx, ny, nz, s, t]
  {
    Vertex3TN(x, y, z, nx, ny, nz, s, t)
  }

  /** The eight floats a vertex contributes to an interleaved buffer:
      position, normal, texture coordinate. */
  function Floats(v: Vertex3TN): (r: seq<real>)
    ensures |r| == 8
  {
    [v.x, v.y, v.z, v.nx, v.ny, v.nz, v.s, v.t]
  }

  /** The vertex eight floats describe, read in the same order. */
  function FromFloats(r: seq<real>): Vertex3TN
    requires |r| == 8
  {
    Vertex3TN(r[0], r[1], r[2], r[3], r[4], r[5], r[6], r[7])
  }

  /** Reading back the floats of a vertex gives the vertex, and eight
      floats are exactly the floats of the vertex they describe. */
  lemma FloatsRoundTrip(v: Vertex3TN, r: seq<real>)
    ensures FromFloats(Floats(v)) == v
    ensures |r| == 8 ==> Floats(FromFloats(r)) == r
  {
  }
}
