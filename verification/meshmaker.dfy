/** MeshMaker of 9/shadows/include/MeshMaker.hpp: an indexed-triangle
    builder that stores each vertex once and refers to it by number. Its
    map is keyed by std::shared_ptr, that is by allocation, so two
    different pointers to equal vertices are stored twice. */
module MeshMakers {
  import opened Common
  import opened Vertices
  import L = Layouts

  datatype VertexLayout = Vertex2Layout | Vertex3TNLayout | End

  /** A std::shared_ptr<Vertex3TN>: the allocation's address and the vertex
      it holds. */
  datatype Ref = Ref(address: nat, v: Vertex3TN)

  datatype MeshMaker = MeshMaker(
    layout: VertexLayout,
    vertexMap: map<Ref, nat>,
    vertices: seq<real>,
    indices: seq<nat>)

  /** MeshMaker::MeshMaker: the chosen layout and nothing stored. */
  function New(layout: VertexLayout): (m: MeshMaker)
    ensures Valid(m) && m.vertices == [] && m.indices == [] && m.layout == layout
  {
    MeshMaker(layout, map[], [], [])
  }

  /** The float data read back as vertices, eight floats each. */
  function Chunks(s: seq<real>): (r: seq<Vertex3TN>)
    ensures |r| == |s| / 8
  {
    if |s| < 8 then [] else [FromFloats(s[..8])] + Chunks(s[8..])
  }

  /** Appending a vertex's floats to whole records appends that vertex. */
  lemma {:induction false} ChunksAppend(s: seq<real>, v: Vertex3TN)
    requires |s| % 8 == 0
    ensures Chunks(s + Floats(v)) == Chunks(s) + [v]
  {
    if |s| == 0 {
      assert s + Floats(v) == Floats(v);
      FloatsRoundTrip(v, []);
    } else {
      assert (s + Floats(v))[..8] == s[..8];
      assert (s + Floats(v))[8..] == s[8..] + Floats(v);
      ChunksAppend(s[8..], v);
    }
  }

  /** The vertex stored as number k. */
  function Stored(m: MeshMaker, k: nat): Vertex3TN
    requires k < |Chunks(m.vertices)|
  {
    Chunks(m.vertices)[k]
  }

  /** The builder's invariant: eight floats per mapped pointer; the map
      numbers the pointers 0, 1, ... without repeats; each number's floats
      are its pointer's vertex; every index names a stored vertex. */
  predicate Valid(m: MeshMaker) {
    && |m.vertices| == 8 * |m.vertexMap|
    && |Chunks(m.vertices)| == |m.vertexMap|
    && (forall r | r in m.vertexMap :: m.vertexMap[r] < |m.vertexMap| && Chunks(m.vertices)[m.vertexMap[r]] == r.v)
    && (forall r1, r2 | r1 in m.vertexMap && r2 in m.vertexMap && r1 != r2 :: m.vertexMap[r1] != m.vertexMap[r2])
    && (forall k | 0 <= k < |m.indices| :: m.indices[k] < |m.vertexMap|)
  }

  /** The number a corner receives: its own if the pointer is known, the
      next free one otherwise. */
  function Number(vm: map<Ref, nat>, p: Ref): nat {
    if p in vm then vm[p] else |vm|
  }

  /** The map after looking a pointer up. */
  function Enter(vm: map<Ref, nat>, p: Ref): map<Ref, nat> {
    if p in vm then vm else vm[p := |vm|]
  }

  /** The floats looking a pointer up appends: none for a known pointer,
      its vertex's eight for a new one. */
  function NewData(vm: map<Ref, nat>, p: Ref): seq<real> {
    if p in vm then [] else Floats(p.v)
  }

  /** The builder after adding a new pointer with the next number. */
  function Insert(m: MeshMaker, p: Ref): MeshMaker {
    m.(vertexMap := m.vertexMap[p := |m.vertexMap|], vertices := m.vertices + Floats(p.v))
  }

  lemma InsertStoresVertices(m: MeshMaker, p: Ref)
    requires Valid(m) && p !in m.vertexMap
    ensures var r := Insert(m, p);
      |r.vertexMap| == |m.vertexMap| + 1
      && Chunks(r.vertices) == Chunks(m.vertices) + [p.v]
      && forall q | q in r.vertexMap :: r.vertexMap[q] < |r.vertexMap| && Chunks(r.vertices)[r.vertexMap[q]] == q.v
  {
    var r := Insert(m, p);
    ChunksAppend(m.vertices, p.v);
    forall q | q in r.vertexMap
      ensures r.vertexMap[q] < |r.vertexMap| && Chunks(r.vertices)[r.vertexMap[q]] == q.v
    {
      if q != p {
        assert r.vertexMap[q] == m.vertexMap[q];
      }
    }
  }

  lemma InsertKeepsNumbersDistinct(m: MeshMaker, p: Ref)
    requires Valid(m) && p !in m.vertexMap
    ensures var r := Insert(m, p);
      forall r1, r2 | r1 in r.vertexMap && r2 in r.vertexMap && r1 != r2 :: r.vertexMap[r1] != r.vertexMap[r2]
  {
    var r := Insert(m, p);
    forall r1, r2 | r1 in r.vertexMap && r2 in r.vertexMap && r1 != r2
      ensures r.vertexMap[r1] != r.vertexMap[r2]
    {
      if r1 != p && r2 != p {
        assert r.vertexMap[r1] == m.vertexMap[r1] && r.vertexMap[r2] == m.vertexMap[r2];
      }
    }
  }

  /** Adding a new pointer with the next number and its floats keeps the
      invariant, and keeps every stored vertex. */
  lemma InsertKeepsValid(m: MeshMaker, p: Ref)
    requires Valid(m) && p !in m.vertexMap
    ensures Valid(Insert(m, p)) && Chunks(Insert(m, p).vertices) == Chunks(m.vertices) + [p.v]
  {
    InsertStoresVertices(m, p);
    InsertKeepsNumbersDistinct(m, p);
  }

  /** One of AddTriangle's three blocks: a known pointer yields its number;
      a new one gets the next number and its eight floats are appended.
      Either way the pointer ends up mapped to the number handed out. */
  function Lookup(m: MeshMaker, p: Ref): (out: (MeshMaker, nat))
    ensures p in out.0.vertexMap && out.0.vertexMap[p] == out.1
    ensures out.0.vertexMap == Enter(m.vertexMap, p) && out.1 == Number(m.vertexMap, p)
    ensures out.0.vertices == m.vertices + NewData(m.vertexMap, p)
    ensures out.0.indices == m.indices && out.0.layout == m.layout
  {
    if p in m.vertexMap then (m, m.vertexMap[p]) else (Insert(m, p), |m.vertexMap|)
  }

  /** Looking a pointer up keeps the invariant, hands out the number under
      which the pointer's vertex is stored, and keeps every stored vertex. */
  lemma LookupKeepsValid(m: MeshMaker, p: Ref)
    requires Valid(m)
    ensures var out := Lookup(m, p);
      && Valid(out.0) && out.1 < |Chunks(out.0.vertices)| && Stored(out.0, out.1) == p.v
      && Chunks(m.vertices) <= Chunks(out.0.vertices)
  {
    if p !in m.vertexMap {
      InsertKeepsValid(m, p);
    }
  }

  /** MeshMaker::AddTriangle: look up or add each corner, then append the
      three numbers. The three indices appended are the corners' numbers
      in the resulting map. */
  function AddTriangle(m: MeshMaker, a: Ref, b: Ref, c: Ref): (r: MeshMaker)
    ensures |r.indices| == |m.indices| + 3 && r.indices[..|m.indices|] == m.indices
    ensures a in r.vertexMap && r.indices[|m.indices|] == r.vertexMap[a]
    ensures b in r.vertexMap && r.indices[|m.indices| + 1] == r.vertexMap[b]
    ensures c in r.vertexMap && r.indices[|m.indices| + 2] == r.vertexMap[c]
    ensures r.layout == m.layout
  {
    var (m1, i1) := Lookup(m, a);
    var (m2, i2) := Lookup(m1, b);
    var (m3, i3) := Lookup(m2, c);
    AppendThree(m.indices, i1, i2, i3);
    m3.(indices := m3.indices + [i1, i2, i3])
  }

  lemma AppendThree<X>(s: seq<X>, a: X, b: X, c: X)
    ensures var t := s + [a, b, c];
      |t| == |s| + 3 && t[..|s|] == s && t[|s|] == a && t[|s| + 1] == b && t[|s| + 2] == c
  {
  }

  lemma PrefixKeeps<X>(s: seq<X>, t: seq<X>, i: nat)
    requires s <= t && i < |s|
    ensures t[i] == s[i]
  {
  }

  lemma PrefixTransitive<X>(s: seq<X>, t: seq<X>, u: seq<X>)
    requires s <= t && t <= u
    ensures s <= u
  {
  }

  /** AddTriangle is de-duplication by pointer: each corner gets its
      existing number or the next new one, in corner order. */
  lemma AddTriangleNumbers(m: MeshMaker, a: Ref, b: Ref, c: Ref)
    ensures var r := AddTriangle(m, a, b, c);
      var vm1 := Enter(m.vertexMap, a);
      var vm2 := Enter(vm1, b);
      && r.vertexMap == Enter(vm2, c)
      && r.indices == m.indices + [Number(m.vertexMap, a), Number(vm1, b), Number(vm2, c)]
  {
  }

  /** Entering a pointer never renumbers a pointer already entered. */
  lemma EnterKeepsNumbers(vm: map<Ref, nat>, p: Ref)
    ensures forall q | q in vm :: q in Enter(vm, p) && Enter(vm, p)[q] == vm[q]
  {
  }

  /** AddTriangle never renumbers a pointer it had already seen. */
  lemma AddTriangleKeepsNumbers(m: MeshMaker, a: Ref, b: Ref, c: Ref)
    ensures var r := AddTriangle(m, a, b, c);
      forall q | q in m.vertexMap :: q in r.vertexMap && r.vertexMap[q] == m.vertexMap[q]
  {
    AddTriangleNumbers(m, a, b, c);
    var vm1 := Enter(m.vertexMap, a);
    EnterKeepsNumbers(m.vertexMap, a);
    EnterKeepsNumbers(vm1, b);
    EnterKeepsNumbers(Enter(vm1, b), c);
  }

  /** AddTriangle appends vertex data only for the corners whose pointers
      it has not seen, in corner order. */
  lemma AddTriangleVertices(m: MeshMaker, a: Ref, b: Ref, c: Ref)
    ensures var vm1 := Enter(m.vertexMap, a);
      var vm2 := Enter(vm1, b);
      AddTriangle(m, a, b, c).vertices == m.vertices + NewData(m.vertexMap, a) + NewData(vm1, b) + NewData(vm2, c)
  {
  }

  lemma AppendTriangleKeepsValid(m: MeshMaker, i1: nat, i2: nat, i3: nat)
    requires Valid(m) && i1 < |m.vertexMap| && i2 < |m.vertexMap| && i3 < |m.vertexMap|
    ensures Valid(m.(indices := m.indices + [i1, i2, i3]))
  {
    var r := m.(indices := m.indices + [i1, i2, i3]);
    forall k | 0 <= k < |r.indices|
      ensures r.indices[k] < |r.vertexMap|
    {
      if k >= |m.indices| {
        assert r.indices[k] in [i1, i2, i3];
      }
    }
  }

  /** AddTriangle keeps the invariant: the triangle's indices name stored
      vertices equal to its corners, and earlier vertices stay. */
  lemma AddTriangleKeepsValid(m: MeshMaker, a: Ref, b: Ref, c: Ref)
    requires Valid(m)
    ensures var r := AddTriangle(m, a, b, c);
      && Valid(r)
      && Stored(r, r.indices[|m.indices|]) == a.v
      && Stored(r, r.indices[|m.indices| + 1]) == b.v
      && Stored(r, r.indices[|m.indices| + 2]) == c.v
      && Chunks(m.vertices) <= Chunks(r.vertices)
  {
    var (m1, i1) := Lookup(m, a);
    LookupKeepsValid(m, a);
    var (m2, i2) := Lookup(m1, b);
    LookupKeepsValid(m1, b);
    var (m3, i3) := Lookup(m2, c);
    LookupKeepsValid(m2, c);
    PrefixTransitive(Chunks(m1.vertices), Chunks(m2.vertices), Chunks(m3.vertices));
    PrefixKeeps(Chunks(m1.vertices), Chunks(m3.vertices), i1);
    PrefixKeeps(Chunks(m2.vertices), Chunks(m3.vertices), i2);
    PrefixTransitive(Chunks(m.vertices), Chunks(m1.vertices), Chunks(m2.vertices));
    PrefixTransitive(Chunks(m.vertices), Chunks(m2.vertices), Chunks(m3.vertices));
    AppendTriangleKeepsValid(m3, i1, i2, i3);
  }

  /** A triangle of three new, pairwise different pointers numbers them
      n, n+1, n+2 after the n already stored and appends their data. */
  lemma FreshTriangle(m: MeshMaker, a: Ref, b: Ref, c: Ref)
    requires a !in m.vertexMap && b !in m.vertexMap && c !in m.vertexMap
    requires a != b && b != c && a != c
    ensures var r := AddTriangle(m, a, b, c);
      var n := |m.vertexMap|;
      && r.vertexMap == m.vertexMap[a := n][b := n + 1][c := n + 2]
      && |r.vertexMap| == n + 3
      && r.indices == m.indices + [n, n + 1, n + 2]
      && r.vertices == m.vertices + Floats(a.v) + Floats(b.v) + Floats(c.v)
  {
    AddTriangleNumbers(m, a, b, c);
    AddTriangleVertices(m, a, b, c);
    var vm1 := Enter(m.vertexMap, a);
    assert b !in vm1 && |vm1| == |m.vertexMap| + 1;
    var vm2 := Enter(vm1, b);
    assert c !in vm2 && |vm2| == |m.vertexMap| + 2;
  }

  /** The second triangle of a quad with corners v0..v3: (v0,v2,v3) for the
      plane, (v2,v3,v0) and (v1,v0,v3) for the cube's faces. The first is
      always (v0,v1,v2). */
  datatype QuadShape = Fan | Strip | Flip

  /** The second triangle's corners, as positions 0..3 of the quad. */
  function SecondCorners(shape: QuadShape): (r: (nat, nat, nat))
    ensures r.0 < 4 && r.1 < 4 && r.2 < 4
    ensures r.0 == 3 || r.1 == 3 || r.2 == 3
  {
    match shape
    case Fan => (0, 2, 3)
    case Strip => (2, 3, 0)
    case Flip => (1, 0, 3)
  }

  function Pick(v0: Ref, v1: Ref, v2: Ref, v3: Ref, k: nat): Ref
    requires k < 4
  {
    if k == 0 then v0 else if k == 1 then v1 else if k == 2 then v2 else v3
  }

  /** Two AddTriangle calls over the corners v0..v3: (v0,v1,v2) and then
      the shape's second triangle. */
  function Quad(m: MeshMaker, shape: QuadShape, v0: Ref, v1: Ref, v2: Ref, v3: Ref): (r: MeshMaker)
    ensures |r.indices| == |m.indices| + 6 && r.layout == m.layout
  {
    var t := SecondCorners(shape);
    AddTriangle(AddTriangle(m, v0, v1, v2), Pick(v0, v1, v2, v3, t.0), Pick(v0, v1, v2, v3, t.1), Pick(v0, v1, v2, v3, t.2))
  }

  /** A quad keeps the builder's invariant. */
  lemma QuadKeepsValid(m: MeshMaker, shape: QuadShape, v0: Ref, v1: Ref, v2: Ref, v3: Ref)
    requires Valid(m)
    ensures Valid(Quad(m, shape, v0, v1, v2, v3))
  {
    AddTriangleKeepsValid(m, v0, v1, v2);
    var t := SecondCorners(shape);
    AddTriangleKeepsValid(AddTriangle(m, v0, v1, v2), Pick(v0, v1, v2, v3, t.0), Pick(v0, v1, v2, v3, t.1), Pick(v0, v1, v2, v3, t.2));
  }

  /** The indices of the second triangle when the corners are numbered
      n to n+3. */
  function SecondIndices(shape: QuadShape, n: nat): (r: seq<nat>)
    ensures var t := SecondCorners(shape); r == [n + t.0, n + t.1, n + t.2]
  {
    match shape
    case Fan => [n, n + 2, n + 3]
    case Strip => [n + 2, n + 3, n]
    case Flip => [n + 1, n, n + 3]
  }

  /** The six indices of a quad whose corners are numbered n to n+3. */
  function QuadIndices(shape: QuadShape, n: nat): seq<nat> {
    [n, n + 1, n + 2] + SecondIndices(shape, n)
  }

  /** On a builder whose pointers were all allocated before the four
      corners, which were allocated in order, a quad numbers the corners n
      to n+3 after the n vertices already stored, indexes the first
      triangle as (n,n+1,n+2) and the second by its shape, and appends
      each corner's floats once, in order. */
  lemma QuadOnFreshPointers(m: MeshMaker, shape: QuadShape, v0: Ref, v1: Ref, v2: Ref, v3: Ref)
    requires forall q | q in m.vertexMap :: q.address < v0.address
    requires v0.address < v1.address < v2.address < v3.address
    ensures var r := Quad(m, shape, v0, v1, v2, v3);
      var n := |m.vertexMap|;
      && r.vertexMap == m.vertexMap[v0 := n][v1 := n + 1][v2 := n + 2][v3 := n + 3]
      && |r.vertexMap| == n + 4
      && r.indices == m.indices + QuadIndices(shape, n)
      && r.vertices == m.vertices + Floats(v0.v) + Floats(v1.v) + Floats(v2.v) + Floats(v3.v)
  {
    var n := |m.vertexMap|;
    AppendAssociates(m.indices, [n, n + 1, n + 2], SecondIndices(shape, n));
    assert v0 !in m.vertexMap && v1 !in m.vertexMap && v2 !in m.vertexMap && v3 !in m.vertexMap;
    FreshTriangle(m, v0, v1, v2);
    var m1 := AddTriangle(m, v0, v1, v2);
    SecondTriangleOfQuad(m1, shape, v0, v1, v2, v3, n);
  }

  /** The second triangle of a quad whose first three corners are numbered
      n to n+2 and whose fourth is new: the fourth gets n+3 and only its
      floats are appended. */
  lemma SecondTriangleOfQuad(m: MeshMaker, shape: QuadShape, v0: Ref, v1: Ref, v2: Ref, v3: Ref, n: nat)
    requires |m.vertexMap| == n + 3 && v3 !in m.vertexMap
    requires v0 in m.vertexMap && v1 in m.vertexMap && v2 in m.vertexMap
    requires m.vertexMap[v0] == n && m.vertexMap[v1] == n + 1 && m.vertexMap[v2] == n + 2
    ensures var t := SecondCorners(shape);
      var r := AddTriangle(m, Pick(v0, v1, v2, v3, t.0), Pick(v0, v1, v2, v3, t.1), Pick(v0, v1, v2, v3, t.2));
      && r.vertexMap == m.vertexMap[v3 := n + 3]
      && r.indices == m.indices + SecondIndices(shape, n)
      && r.vertices == m.vertices + Floats(v3.v)
  {
    var t := SecondCorners(shape);
    var a, b, c := Pick(v0, v1, v2, v3, t.0), Pick(v0, v1, v2, v3, t.1), Pick(v0, v1, v2, v3, t.2);
    AddTriangleNumbers(m, a, b, c);
    AddTriangleVertices(m, a, b, c);
  }

  /** MeshMaker::GetVerticesCount: the float count (eight per vertex),
      truncated to 32 bits. */
  function VerticesCount(m: MeshMaker): (r: nat)
    ensures r < U32_MODULUS
    ensures Valid(m) && |m.vertices| < U32_MODULUS ==> r == 8 * |m.vertexMap|
  {
    ToU32(|m.vertices|)
  }

  /** MeshMaker::GetIndicesCount: the index count, truncated to 32 bits. */
  function IndicesCount(m: MeshMaker): (r: nat)
    ensures r < U32_MODULUS
    ensures |m.indices| < U32_MODULUS ==> r == |m.indices|
  {
    ToU32(|m.indices|)
  }

  /** sizeof(Vertex2) and sizeof(Vertex3TN): their floats plus the vtable
      pointer the virtual operator== of IVertex brings, on a platform with
      8-byte pointers. */
  const SizeOfVertex2: nat := 16
  const SizeOfVertex3TN: nat := 40

  /** MeshMaker::GetBufferSizeInBytes: the vertex size of the layout (0 for
      End) times the number of INDICES, truncated to 32 bits. */
  function BufferSizeInBytes(m: MeshMaker): (r: nat)
    ensures r < U32_MODULUS
    ensures m.layout == End ==> r == 0
    ensures m.layout == Vertex3TNLayout && 40 * |m.indices| < U32_MODULUS ==> r == 40 * |m.indices|
  {
    var size := match m.layout
      case Vertex2Layout => SizeOfVertex2
      case Vertex3TNLayout => SizeOfVertex3TN
      case End => 0;
    ToU32(size * |m.indices|)
  }

  /** The eight-argument vertex a make_shared call builds. */
  function Make(address: nat, x: real, y: real, z: real, nx: real, ny: real, nz: real, s: real, t: real): (r: Ref)
    ensures r.address == address && Floats(r.v) == [x, y, z, nx, ny, nz, s, t]
  {
    Ref(address, NewVertex3TNWithNormal(x, y, z, nx, ny, nz, s, t))
  }

  /** Corner k of CreateTexturedPlane, allocated at address base + k. */
  function PlaneCorner(width: real, depth: real, base: nat, k: nat): (r: Ref)
    requires k < 4
    ensures r.address == base + k
  {
    match k
    case 0 => Make(base, width, -0.5, depth, 0.0, 1.0, 0.0, 1.0, 1.0)
    case 1 => Make(base + 1, -width, -0.5, depth, 0.0, 1.0, 0.0, 0.0, 1.0)
    case 2 => Make(base + 2, -width, -0.5, -depth, 0.0, 1.0, 0.0, 0.0, 0.0)
    case 3 => Make(base + 3, width, -0.5, -depth, 0.0, 1.0, 0.0, 1.0, 0.0)
  }

  /** MeshMaker::CreateTexturedPlane: four new vertices at height -0.5
      facing +y, the triangles (v0,v1,v2) and (v0,v2,v3), the Vertex3TN
      layout and Generate's attribute table. The four allocations get the
      addresses base to base + 3. The source sets the layout before adding
      the triangles; AddTriangle does not read it, so the order is
      immaterial. */
  function CreateTexturedPlane(m: MeshMaker, width: real, depth: real, base: nat): (out: (MeshMaker, L.Layout))
    ensures out.0.layout == Vertex3TNLayout && |out.0.indices| == |m.indices| + 6
    ensures out.1.stride == 8 && out.1.vertexBytes == SizeOfVertex3TN * |out.0.vertices|
  {
    var v0, v1 := PlaneCorner(width, depth, base, 0), PlaneCorner(width, depth, base, 1);
    var v2, v3 := PlaneCorner(width, depth, base, 2), PlaneCorner(width, depth, base, 3);
    var m1 := Quad(m, Fan, v0, v1, v2, v3).(layout := Vertex3TNLayout);
    (m1, Generate(m1))
  }

  /** On a builder whose pointers were all allocated before the plane's,
      the plane stores all four corners once, in order, numbered n to n+3,
      and indexes them as the triangles (n,n+1,n+2) and (n,n+2,n+3). */
  lemma PlaneOnFreshBuilder(m: MeshMaker, width: real, depth: real, base: nat)
    requires forall q | q in m.vertexMap :: q.address < base
    ensures var r := CreateTexturedPlane(m, width, depth, base).0;
      var n := |m.vertexMap|;
      && |r.vertexMap| == n + 4
      && r.indices == m.indices + [n, n + 1, n + 2] + [n, n + 2, n + 3]
      && r.vertices == m.vertices + Floats(PlaneCorner(width, depth, base, 0).v) + Floats(PlaneCorner(width, depth, base, 1).v)
           + Floats(PlaneCorner(width, depth, base, 2).v) + Floats(PlaneCorner(width, depth, base, 3).v)
  {
    var v0, v1 := PlaneCorner(width, depth, base, 0), PlaneCorner(width, depth, base, 1);
    var v2, v3 := PlaneCorner(width, depth, base, 2), PlaneCorner(width, depth, base, 3);
    QuadOnFreshPointers(m, Fan, v0, v1, v2, v3);

  }

  /** CreateTexturedPlane keeps the builder's invariant. */
  lemma PlaneKeepsValid(m: MeshMaker, width: real, depth: real, base: nat)
    requires Valid(m)
    ensures Valid(CreateTexturedPlane(m, width, depth, base).0)
  {
    QuadKeepsValid(m, Fan,
      PlaneCorner(width, depth, base, 0), PlaneCorner(width, depth, base, 1),
      PlaneCorner(width, depth, base, 2), PlaneCorner(width, depth, base, 3));
  }

  /** The 24 corner allocations of CreateCube, four per face in the order
      back, front, left, right, bottom, top, each face's corners listed in
      the order its first triangle takes them (the back face's first
      triangle is (back0, back2, back1), so back2 comes second). Corner k
      is given the fresh address base + k; for the back face this swaps the
      addresses of back1 and back2 against the make_shared order, which
      changes nothing because an address only serves as the vertex's
      identity. */
  function CubeCorner(base: nat, k: nat): (r: Ref)
    requires k < 24
    ensures r.address == base + k
  {
    Ref(base + k, FromFloats(CubeData[k]))
  }

  /** The eight floats (position, normal, texture coordinate) of each of
      the cube's corners, as the make_shared calls give them. */
  const CubeData: seq<seq<real>> := [
    // back: back0, back2, back1, back3
    [-1.0, -1.0, -1.0, 0.0, 0.0, -1.0, 0.0, 0.0],
    [1.0, 1.0, -1.0, 0.0, 0.0, -1.0, 1.0, 1.0],
    [1.0, -1.0, -1.0, 0.0, 0.0, -1.0, 1.0, 0.0],
    [-1.0, 1.0, -1.0, 0.0, 0.0, -1.0, 0.0, 1.0],
    // front: f0, f1, f2, f3
    [-1.0, -1.0, 1.0, 0.0, 0.0, 1.0, 0.0, 0.0],
    [1.0, -1.0, 1.0, 0.0, 0.0, 1.0, 1.0, 0.0],
    [1.0, 1.0, 1.0, 0.0, 0.0, 1.0, 1.0, 1.0],
    [-1.0, 1.0, 1.0, 0.0, 0.0, 1.0, 0.0, 1.0],
    // left: l0, l1, l2, l3
    [-1.0, 1.0, 1.0, -1.0, 0.0, 0.0, 1.0, 0.0],
    [-1.0, 1.0, -1.0, -1.0, 0.0, 0.0, 1.0, 1.0],
    [-1.0, -1.0, -1.0, -1.0, 0.0, 0.0, 0.0, 1.0],
    [-1.0, -1.0, 1.0, -1.0, 0.0, 0.0, 0.0, 0.0],
    // right: r0, r1, r2, r3
    [1.0, 1.0, 1.0, 1.0, 0.0, 0.0, 1.0, 0.0],
    [1.0, -1.0, -1.0, 1.0, 0.0, 0.0, 0.0, 1.0],
    [1.0, 1.0, -1.0, 1.0, 0.0, 0.0, 1.0, 1.0],
    [1.0, -1.0, 1.0, 1.0, 0.0, 0.0, 0.0, 0.0],
    // bottom: b0, b1, b2, b3
    [-1.0, -1.0, -1.0, 0.0, -1.0, 0.0, 0.0, 1.0],
    [1.0, -1.0, -1.0, 0.0, -1.0, 0.0, 1.0, 1.0],
    [1.0, -1.0, 1.0, 0.0, -1.0, 0.0, 1.0, 0.0],
    [-1.0, -1.0, 1.0, 0.0, -1.0, 0.0, 0.0, 0.0],
    // top: t0, t1, t2, t3
    [-1.0, 1.0, -1.0, 0.0, 1.0, 0.0, 0.0, 1.0],
    [1.0, 1.0, 1.0, 0.0, 1.0, 0.0, 1.0, 0.0],
    [1.0, 1.0, -1.0, 0.0, 1.0, 0.0, 1.0, 1.0],
    [-1.0, 1.0, 1.0, 0.0, 1.0, 0.0, 0.0, 0.0]
  ]

  /** The cube's corners in the order the AddTriangle calls first use them. */
  function CubeCorners(base: nat): (r: seq<Ref>)
    ensures |r| == 24
    ensures forall k | 0 <= k < 24 :: r[k].address == base + k
  {
    seq(24, k requires 0 <= k < 24 => CubeCorner(base, k))
  }

  /** The second triangle of each face, back to top: (back2, back0, back3),
      (f2, f3, f0), (l2, l3, l0), (r1, r0, r3), (b2, b3, b0), (t1, t0, t3). */
  const CubeShapes: seq<QuadShape> := [Flip, Strip, Strip, Flip, Strip, Flip]

  /** One quad per shape, over consecutive groups of four corners. */
  /** The quad over the first four corners. */
  function QuadOf(m: MeshMaker, shape: QuadShape, corners: seq<Ref>): MeshMaker
    requires |corners| >= 4
  {
    Quad(m, shape, corners[0], corners[1], corners[2], corners[3])
  }

  /** The floats of the first four corners, in order. */
  function QuadFloats(corners: seq<Ref>): seq<real>
    requires |corners| >= 4
  {
    Floats(corners[0].v) + Floats(corners[1].v) + Floats(corners[2].v) + Floats(corners[3].v)
  }

  function Faces(m: MeshMaker, corners: seq<Ref>, shapes: seq<QuadShape>): (r: MeshMaker)
    requires |corners| == 4 * |shapes|
    ensures |r.indices| == |m.indices| + 6 * |shapes| && r.layout == m.layout
    decreases shapes
  {
    if shapes == [] then m
    else Faces(QuadOf(m, shapes[0], corners), corners[4..], shapes[1..])
  }

  /** MeshMaker::CreateCube: six faces of four new vertices each, on the
      cube from -1 to 1 whatever the arguments (x, y and z are unused), then
      the Vertex3TN layout and Generate's attribute table. */
  function CreateCube(m: MeshMaker, x: real, y: real, z: real, base: nat): (out: (MeshMaker, L.Layout))
    ensures out.0.layout == Vertex3TNLayout && |out.0.indices| == |m.indices| + 36
    ensures out.1.stride == 8 && out.1.vertexBytes == SizeOfVertex3TN * |out.0.vertices|
  {
    var m1 := Faces(m, CubeCorners(base), CubeShapes).(layout := Vertex3TNLayout);
    (m1, Generate(m1))
  }

  /** The indices the quads append when their corners are numbered from n. */
  function FacesIndices(n: nat, shapes: seq<QuadShape>): (r: seq<nat>)
    ensures |r| == 6 * |shapes|
    decreases shapes
  {
    if shapes == [] then [] else QuadIndices(shapes[0], n) + FacesIndices(n + 4, shapes[1..])
  }

  /** The floats of a sequence of vertices, one after the other. */
  function AllFloats(corners: seq<Ref>): (r: seq<real>)
    ensures |r| == 8 * |corners|
  {
    if corners == [] then [] else Floats(corners[0].v) + AllFloats(corners[1..])
  }

  lemma AppendAssociates<X>(a: seq<X>, b: seq<X>, c: seq<X>)
    ensures a + (b + c) == a + b + c
  {
  }

  lemma AppendFourAssociates<X>(a: seq<X>, b0: seq<X>, b1: seq<X>, b2: seq<X>, b3: seq<X>)
    ensures a + (b0 + b1 + b2 + b3) == a + b0 + b1 + b2 + b3
  {
    AppendAssociates(a, b0 + b1 + b2, b3);
    AppendAssociates(a, b0 + b1, b2);
    AppendAssociates(a, b0, b1);
  }

  lemma AllFloatsOfQuad(corners: seq<Ref>)
    requires |corners| >= 4
    ensures AllFloats(corners) == QuadFloats(corners) + AllFloats(corners[4..])
  {
    var c1, c2, c3 := corners[1..], corners[2..], corners[3..];
    assert c1[1..] == c2 && c2[1..] == c3 && c3[1..] == corners[4..];
    var f0, f1, f2, f3 := Floats(corners[0].v), Floats(corners[1].v), Floats(corners[2].v), Floats(corners[3].v);
    var rest := AllFloats(corners[4..]);
    assert c1[0] == corners[1] && c2[0] == corners[2] && c3[0] == corners[3];
    assert AllFloats(corners) == f0 + AllFloats(c1);
    assert AllFloats(c1) == f1 + AllFloats(c2);
    assert AllFloats(c2) == f2 + AllFloats(c3);
    assert AllFloats(c3) == f3 + rest;
    AppendAssociates(f2, f3, rest);
    AppendAssociates(f1, f2 + f3, rest);
    AppendAssociates(f1, f2, f3);
    AppendAssociates(f0, f1 + f2 + f3, rest);
    AppendAssociates(f0, f1 + f2, f3);
    AppendAssociates(f0, f1, f2);
  }

  /** Corners allocated in strictly increasing order after every pointer
      the builder holds. */
  predicate AllocatedAfter(m: MeshMaker, corners: seq<Ref>) {
    && (forall i, j | 0 <= i < j < |corners| :: corners[i].address < corners[j].address)
    && (forall q, i | q in m.vertexMap && 0 <= i < |corners| :: q.address < corners[i].address)
  }

  /** The builder r extends m by k new pointers, the indices idx and the
      floats data, and nothing else. */
  predicate Grows(m: MeshMaker, r: MeshMaker, k: int, idx: seq<nat>, data: seq<real>) {
    (|r.vertexMap|, r.indices, r.vertices) == (|m.vertexMap| + k, m.indices + idx, m.vertices + data)
  }

  lemma GrowsTwice(m: MeshMaker, next: MeshMaker, r: MeshMaker, k1: int, i1: seq<nat>, d1: seq<real>, k2: int, i2: seq<nat>, d2: seq<real>)
    requires Grows(m, next, k1, i1, d1) && Grows(next, r, k2, i2, d2)
    ensures Grows(m, r, k1 + k2, i1 + i2, d1 + d2)
  {
    AppendAssociates(m.indices, i1, i2);
    AppendAssociates(m.vertices, d1, d2);
  }

  /** On a builder whose pointers all predate the corners, quads never
      share a vertex: each stores its four corners, in order, and indexes
      them from the next free number. */
  lemma {:induction false} FacesOnFreshBuilder(m: MeshMaker, corners: seq<Ref>, shapes: seq<QuadShape>)
    requires |corners| == 4 * |shapes| && AllocatedAfter(m, corners)
    ensures Grows(m, Faces(m, corners, shapes), |corners|, FacesIndices(|m.vertexMap|, shapes), AllFloats(corners))
    decreases shapes
  {
    if shapes != [] {
      var next := QuadOf(m, shapes[0], corners);
      FirstQuadOnFreshBuilder(m, corners, shapes[0]);
      FacesOnFreshBuilder(next, corners[4..], shapes[1..]);
      GrowsByFaces(m, next, Faces(next, corners[4..], shapes[1..]), corners, shapes);
    } else {
      assert m.indices + [] == m.indices && m.vertices + [] == m.vertices;
    }
  }

  /** One quad, then the rest of the faces: the growth adds up. */
  lemma GrowsByFaces(m: MeshMaker, next: MeshMaker, r: MeshMaker, corners: seq<Ref>, shapes: seq<QuadShape>)
    requires |corners| == 4 * |shapes| && shapes != []
    requires Grows(m, next, 4, QuadIndices(shapes[0], |m.vertexMap|), QuadFloats(corners))
    requires Grows(next, r, |corners[4..]|, FacesIndices(|next.vertexMap|, shapes[1..]), AllFloats(corners[4..]))
    ensures Grows(m, r, |corners|, FacesIndices(|m.vertexMap|, shapes), AllFloats(corners))
  {
    var n := |m.vertexMap|;
    AllFloatsOfQuad(corners);
    assert |next.vertexMap| == n + 4;
    GrowsTwice(m, next, r, 4, QuadIndices(shapes[0], n), QuadFloats(corners),
      |corners[4..]|, FacesIndices(n + 4, shapes[1..]), AllFloats(corners[4..]));
  }

  /** The first quad over fresh corners, and the remaining corners are
      still fresh afterwards. */
  lemma FirstQuadOnFreshBuilder(m: MeshMaker, corners: seq<Ref>, shape: QuadShape)
    requires |corners| >= 4 && AllocatedAfter(m, corners)
    ensures var r := QuadOf(m, shape, corners);
      && Grows(m, r, 4, QuadIndices(shape, |m.vertexMap|), QuadFloats(corners))
      && AllocatedAfter(r, corners[4..])
  {
    var v0, v1, v2, v3 := corners[0], corners[1], corners[2], corners[3];
    assert v0.address < v1.address < v2.address < v3.address;
    QuadOnFreshPointers(m, shape, v0, v1, v2, v3);
    AppendFourAssociates(m.vertices, Floats(v0.v), Floats(v1.v), Floats(v2.v), Floats(v3.v));
    var next := Quad(m, shape, v0, v1, v2, v3);
    RestStaysFresh(m, next, corners);
  }

  /** After a quad over the first four corners, the remaining corners are
      still allocated after every pointer the builder holds. */
  lemma RestStaysFresh(m: MeshMaker, r: MeshMaker, corners: seq<Ref>)
    requires |corners| >= 4 && AllocatedAfter(m, corners)
    requires r.vertexMap == m.vertexMap[corners[0] := |m.vertexMap|][corners[1] := |m.vertexMap| + 1]
      [corners[2] := |m.vertexMap| + 2][corners[3] := |m.vertexMap| + 3]
    ensures AllocatedAfter(r, corners[4..])
  {
    var rest := corners[4..];
    forall q, i | q in r.vertexMap && 0 <= i < |rest|
      ensures q.address < rest[i].address
    {
      assert rest[i] == corners[i + 4];
      if q !in m.vertexMap {
        assert q == corners[0] || q == corners[1] || q == corners[2] || q == corners[3];
      }
    }
    forall i, j | 0 <= i < j < |rest|
      ensures rest[i].address < rest[j].address
    {
      assert rest[i] == corners[i + 4] && rest[j] == corners[j + 4];
    }
  }

  /** Quads keep the builder's invariant. */
  lemma {:induction false} FacesKeepValid(m: MeshMaker, corners: seq<Ref>, shapes: seq<QuadShape>)
    requires |corners| == 4 * |shapes| && Valid(m)
    ensures Valid(Faces(m, corners, shapes))
    decreases shapes
  {
    if shapes != [] {
      var next := QuadOf(m, shapes[0], corners);
      QuadKeepsValid(m, shapes[0], corners[0], corners[1], corners[2], corners[3]);
      FacesKeepValid(next, corners[4..], shapes[1..]);
      assert Faces(m, corners, shapes) == Faces(next, corners[4..], shapes[1..]);
    }
  }

  /** On a builder whose pointers predate the cube's, the cube stores its
      24 corners, in order, and appends the indices of its twelve
      triangles. */
  lemma CubeOnFreshBuilder(m: MeshMaker, x: real, y: real, z: real, base: nat)
    requires forall q | q in m.vertexMap :: q.address < base
    ensures Grows(m, CreateCube(m, x, y, z, base).0, 24, FacesIndices(|m.vertexMap|, CubeShapes), AllFloats(CubeCorners(base)))
  {
    var cs := CubeCorners(base);
    CubeCornersAllocatedAfter(m, base);
    FacesOnFreshBuilder(m, cs, CubeShapes);
    LayoutIsIrrelevant(m, Faces(m, cs, CubeShapes), Vertex3TNLayout, |cs|, FacesIndices(|m.vertexMap|, CubeShapes), AllFloats(cs));
  }

  /** The cube keeps the builder's invariant. */
  lemma CubeKeepsValid(m: MeshMaker, x: real, y: real, z: real, base: nat)
    requires Valid(m)
    ensures Valid(CreateCube(m, x, y, z, base).0)
  {
    var f := Faces(m, CubeCorners(base), CubeShapes);
    FacesKeepValid(m, CubeCorners(base), CubeShapes);
    ValidIgnoresLayout(f, Vertex3TNLayout);
  }

  /** The cube's corners are allocated in order, after every pointer the
      builder already holds. */
  lemma CubeCornersAllocatedAfter(m: MeshMaker, base: nat)
    requires forall q | q in m.vertexMap :: q.address < base
    ensures AllocatedAfter(m, CubeCorners(base))
  {
  }

  /** Growth does not depend on the layout tag. */
  lemma LayoutIsIrrelevant(m: MeshMaker, r: MeshMaker, layout: VertexLayout, k: int, idx: seq<nat>, data: seq<real>)
    requires Grows(m, r, k, idx, data)
    ensures Grows(m, r.(layout := layout), k, idx, data)
  {
  }

  /** The invariant does not depend on the layout tag. */
  lemma ValidIgnoresLayout(m: MeshMaker, layout: VertexLayout)
    requires Valid(m)
    ensures Valid(m.(layout := layout))
  {
  }

  /** Numbered from 0, the cube's index buffer is, face by face, the
      triangles the source lists over the vertices 0 to 23. */
  lemma CubeIndicesFromZero()
    ensures FacesIndices(0, CubeShapes) == [0, 1, 2, 1, 0, 3] + ([4, 5, 6, 6, 7, 4] + ([8, 9, 10, 10, 11, 8] +
      ([12, 13, 14, 13, 12, 15] + ([16, 17, 18, 18, 19, 16] + [20, 21, 22, 21, 20, 23]))))
  {
    CubeFaces();
    QuadIndicesValues(0);
    QuadIndicesValues(4);
    QuadIndicesValues(8);
    QuadIndicesValues(12);
    QuadIndicesValues(16);
    QuadIndicesValues(20);
  }

  /** The cube's faces, back to top, numbered from 0 in steps of four. */
  lemma CubeFaces()
    ensures FacesIndices(0, CubeShapes) == QuadIndices(Flip, 0) + (QuadIndices(Strip, 4) + (QuadIndices(Strip, 8) +
      (QuadIndices(Flip, 12) + (QuadIndices(Strip, 16) + QuadIndices(Flip, 20)))))
  {
    var s := CubeShapes;
    assert s[1..][1..] == s[2..] && s[2..][1..] == s[3..] && s[3..][1..] == s[4..] && s[4..][1..] == s[5..];
    assert s[5..][1..] == [];
    assert FacesIndices(20, s[5..]) == QuadIndices(Flip, 20) + [];
    assert FacesIndices(16, s[4..]) == QuadIndices(Strip, 16) + FacesIndices(20, s[5..]);
    assert FacesIndices(12, s[3..]) == QuadIndices(Flip, 12) + FacesIndices(16, s[4..]);
    assert FacesIndices(8, s[2..]) == QuadIndices(Strip, 8) + FacesIndices(12, s[3..]);
    assert FacesIndices(4, s[1..]) == QuadIndices(Strip, 4) + FacesIndices(8, s[2..]);
  }

  /** The six indices of each shape of quad: the first triangle (n, n+1,
      n+2), then the shape's second one. */
  lemma QuadIndicesValues(n: nat)
    ensures QuadIndices(Fan, n) == [n, n + 1, n + 2, n, n + 2, n + 3]
    ensures QuadIndices(Strip, n) == [n, n + 1, n + 2, n + 2, n + 3, n]
    ensures QuadIndices(Flip, n) == [n, n + 1, n + 2, n + 1, n, n + 3]
  {
  }

  /** MeshMaker::Generate: the attribute table (GL calls left out). The
      vertex buffer is sized as |vertices| times sizeof(Vertex3TN), which
      counts floats, not vertices. */
  function Generate(m: MeshMaker): (l: L.Layout)
    ensures l.stride == 8 && l.indexBytes == L.IndexBytes * |m.indices|
    ensures l.vertexBytes == SizeOfVertex3TN * |m.vertices|
  {
    L.MeshMakerLayout(|m.vertices| * SizeOfVertex3TN, |m.indices|)
  }
}
