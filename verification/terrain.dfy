/** The height-map terrain of cpp/10/shadows/src/Terrain.cpp: heights
    sampled from the red channel of a PPM image, one vertex per sample laid
    out z-major, and two triangles per grid cell.

    The image is given already loaded (the constructor's
    `heightMap.LoadPPM(true)` is `Images.LoadPPM`). The nested loops of the
    source visit the samples and the cells in the order of a single counter
    running z-major, which is how they are written here. */
module Terrains {
  import opened Common
  import opened Linear
  import opened Geometries
  import Images
  import Layouts

  // ---------------------------------------------------------------------
  // Grid arithmetic

  /** The column of sample k in a grid `xs` samples wide. */
  function Column(k: nat, xs: nat): nat
    requires xs > 0
  {
    k % xs
  }

  /** The row of sample k in a grid `xs` samples wide. */
  function Row(k: nat, xs: nat): nat
    requires xs > 0
  {
    k / xs
  }

  /** Sample k of a grid `xs` samples wide lies in column k % xs and row
      k / xs, and the grid has room for it. */
  lemma SplitGridIndex(k: nat, xs: nat, zs: nat)
    requires k < xs * zs
    ensures xs > 0 && Column(k, xs) < xs && Row(k, xs) < zs && k == Column(k, xs) + Row(k, xs) * xs
  {
    assert xs != 0;
    assert 0 <= k / xs by {
      assert k / xs * xs + k % xs == k;
      LessFromProduct(-1, k / xs, xs);
    }
    assert (k / xs) * xs <= k;
    LessFromProduct(k / xs, zs, xs);
  }

  /** Column x of row z is sample x + z * xs, and it lies in the grid. */
  lemma JoinGridIndex(x: nat, z: nat, xs: nat, zs: nat)
    requires x < xs && z < zs
    ensures x + z * xs < xs * zs
    ensures Column(x + z * xs, xs) == x && Row(x + z * xs, xs) == z
  {
    MultiplyMonotone(z + 1, zs, xs);
    assert (z + 1) * xs == z * xs + xs;
    DivModUnique(x + z * xs, xs, x, z);
  }

  // ---------------------------------------------------------------------
  // Heights

  /** Every sample the constructor reads lies inside the image buffer; the
      sample for column x and row z is `GetPixelR(z, x)`. */
  predicate Covers(img: Images.Image, xs: nat, zs: nat) {
    forall x: nat, z: nat | x < xs && z < zs :: Images.InBuffer(img, z, x)
  }

  /** The height of column x, row z: the red byte divided by the scale
      5.0f and truncated into an `int`. A byte divided by 5 is never so
      close to an integer that single-precision rounding changes the
      truncated value, so this is integer division. */
  function Height(img: Images.Image, x: nat, z: nat): (h: int)
    requires Images.InBuffer(img, z, x)
    ensures 0 <= h <= 51
  {
    Images.GetPixelR(img, z, x) / 5
  }

  /** The height array filled by the constructor, `xs * zs` entries. */
  function HeightData(img: Images.Image, xs: nat, zs: nat): (h: seq<int>)
    requires Covers(img, xs, zs)
    ensures |h| == xs * zs
  {
    seq(xs * zs, k requires 0 <= k < xs * zs => HeightOfSample(img, xs, zs, k))
  }

  function HeightOfSample(img: Images.Image, xs: nat, zs: nat, k: nat): int
    requires Covers(img, xs, zs) && k < xs * zs
  {
    SplitGridIndex(k, xs, zs);
    Height(img, Column(k, xs), Row(k, xs))
  }

  /** Entry x + z * xSegments of the height array is the height sampled at
      column x, row z. */
  lemma HeightDataAt(img: Images.Image, xs: nat, zs: nat, x: nat, z: nat)
    requires Covers(img, xs, zs) && x < xs && z < zs
    ensures x + z * xs < xs * zs
    ensures HeightData(img, xs, zs)[x + z * xs] == Height(img, x, z)
  {
    JoinGridIndex(x, z, xs, zs);
  }

  // ---------------------------------------------------------------------
  // Vertices

  /** Texture coordinate u of column x (or v of row z): 1 - x / segments. */
  function TexCoord(i: nat, segments: nat): real
    requires segments > 0
  {
    1.0 - (i as real) / (segments as real)
  }

  lemma TexCoordRange(i: nat, segments: nat)
    requires i < segments
    ensures 0.0 < TexCoord(i, segments) <= 1.0
  {
    assert (i as real) < (segments as real);
  }

  /** Where sample i of the grid goes: column, height, row. */
  function SamplePosition(h: seq<int>, xs: nat, i: nat): Vec3
    requires xs > 0 && i < |h|
  {
    Vec3(Column(i, xs) as real, h[i] as real, Row(i, xs) as real)
  }

  /** The texture coordinate of sample i: (1 - column / xs, 1 - row / zs). */
  function SampleTexCoord(xs: nat, zs: nat, i: nat): (real, real)
    requires xs > 0 && zs > 0
  {
    (TexCoord(Column(i, xs), xs), TexCoord(Row(i, xs), zs))
  }

  /** g holds the first n samples of the grid: vertex j sits at sample j's
      position with sample j's texture coordinate. */
  predicate HoldsSamples(g: Geometry, h: seq<int>, xs: nat, zs: nat, n: nat)
    requires xs > 0 && zs > 0 && n <= |h|
  {
    && Parallel(g) && VertexCount(g) == n
    && forall j | 0 <= j < n ::
         Triple(g.positions, j) == SamplePosition(h, xs, j) && Pair(g.texCoords, j) == SampleTexCoord(xs, zs, j)
  }

  /** The geometry after the first k vertices of the grid, one `AddVertex`
      per sample in order. Every vertex added so far sits where its sample
      says, and later additions do not move it. */
  function GridVertices(h: seq<int>, xs: nat, zs: nat, k: nat): (g: Geometry)
    requires xs > 0 && zs > 0 && k <= |h|
    ensures HoldsSamples(g, h, xs, zs, k)
    ensures g.indices == [] && g.buffer == []
    decreases k
  {
    if k == 0 then Empty
    else
      var prev := GridVertices(h, xs, zs, k - 1);
      AddSample(prev, h, xs, zs, k - 1);
      AddSampleVertex(prev, h, xs, zs, k - 1)
  }

  /** Adding sample i to a geometry that holds samples 0 .. i - 1 gives one
      that holds samples 0 .. i. */
  lemma AddSample(g: Geometry, h: seq<int>, xs: nat, zs: nat, i: nat)
    requires xs > 0 && zs > 0 && i < |h| && HoldsSamples(g, h, xs, zs, i)
    ensures HoldsSamples(AddSampleVertex(g, h, xs, zs, i), h, xs, zs, i + 1)
  {
    var r := AddSampleVertex(g, h, xs, zs, i);
    forall j | 0 <= j <= i
      ensures Triple(r.positions, j) == SamplePosition(h, xs, j) && Pair(r.texCoords, j) == SampleTexCoord(xs, zs, j)
    {
      if j < i {
        AddVertexKeeps(g, Column(i, xs) as real, h[i] as real, Row(i, xs) as real,
                       TexCoord(Column(i, xs), xs), TexCoord(Row(i, xs), zs), j);
      }
    }
  }

  /** The `AddVertex` call for sample i. */
  function AddSampleVertex(g: Geometry, h: seq<int>, xs: nat, zs: nat, i: nat): (r: Geometry)
    requires xs > 0 && zs > 0 && i < |h| && Parallel(g)
    ensures Parallel(r) && VertexCount(r) == VertexCount(g) + 1
    ensures r.indices == g.indices && r.buffer == g.buffer
  {
    var x, z := Column(i, xs), Row(i, xs);
    AddVertex(g, x as real, h[i] as real, z as real, TexCoord(x, xs), TexCoord(z, zs))
  }

  /** The vertex of column x, row z is vertex x + z * xSegments; it sits at
      (x, height, z) and its texture coordinates lie in (0, 1]. */
  lemma GridVertexOfSample(h: seq<int>, xs: nat, zs: nat, x: nat, z: nat)
    requires |h| == xs * zs && x < xs && z < zs
    ensures 0 <= x + z * xs < xs * zs
    ensures Triple(GridVertices(h, xs, zs, xs * zs).positions, x + z * xs)
            == Vec3(x as real, h[x + z * xs] as real, z as real)
    ensures Pair(GridVertices(h, xs, zs, xs * zs).texCoords, x + z * xs) == (TexCoord(x, xs), TexCoord(z, zs))
    ensures 0.0 < TexCoord(x, xs) <= 1.0 && 0.0 < TexCoord(z, zs) <= 1.0
  {
    JoinGridIndex(x, z, xs, zs);
    PositiveFactors(xs, zs);
    var g := GridVertices(h, xs, zs, xs * zs);
    assert Triple(g.positions, x + z * xs) == SamplePosition(h, xs, x + z * xs);
    assert Pair(g.texCoords, x + z * xs) == SampleTexCoord(xs, zs, x + z * xs);
    TexCoordRange(x, xs);
    TexCoordRange(z, zs);
  }

  // ---------------------------------------------------------------------
  // Indices

  /** The six indices the source adds for cell (x, z), with
      a = x + z * stride: triangles (a, a + xs, a + 1) and
      (a + 1, a + xs, a + xs + 1), in `unsigned int` arithmetic. The source
      uses zSegments as the stride; xSegments is the row length. */
  function CellIndices(x: nat, z: nat, xs: nat, stride: nat): (r: seq<nat>)
    ensures |r| == 6 && forall j | 0 <= j < 6 :: r[j] < U32_MODULUS
  {
    var a := x + z * stride;
    [ToU32(a), ToU32(a + xs), ToU32(a + 1), ToU32(a + 1), ToU32(a + xs), ToU32(a + xs + 1)]
  }

  /** The number of cells: the loops run to xSegments - 1 and zSegments - 1. */
  function CellCount(xs: nat, zs: nat): nat
    requires xs >= 1 && zs >= 1
  {
    (xs - 1) * (zs - 1)
  }

  /** The indices added for the first c cells, z-major. */
  function GridIndices(xs: nat, zs: nat, stride: nat, c: nat): (r: seq<nat>)
    requires xs >= 1 && zs >= 1 && c <= CellCount(xs, zs)
    ensures |r| == 6 * c
    ensures forall j | 0 <= j < |r| :: r[j] < U32_MODULUS
  {
    if c == 0 then []
    else
      SplitGridIndex(c - 1, xs - 1, zs - 1);
      GridIndices(xs, zs, stride, c - 1) + CellIndices(Column(c - 1, xs - 1), Row(c - 1, xs - 1), xs, stride)
  }

  /** The indices `AddIndex` keeps out of `s` for a geometry of `count`
      vertices: those at most `count`. */
  function Kept(s: seq<nat>, count: nat): (r: seq<nat>)
    ensures |r| <= |s|
    ensures forall j | 0 <= j < |r| :: r[j] <= count
  {
    if s == [] then []
    else
      var last := s[|s| - 1];
      Kept(s[..|s| - 1], count) + (if last <= count then [last] else [])
  }

  /** Every element of s is at most count. */
  predicate AtMost(s: seq<nat>, count: nat) {
    forall j | 0 <= j < |s| :: s[j] <= count
  }

  lemma AtMostAppend(a: seq<nat>, b: seq<nat>, count: nat)
    requires AtMost(a, count) && AtMost(b, count)
    ensures AtMost(a + b, count)
  {
  }

  lemma {:induction false} KeptAll(s: seq<nat>, count: nat)
    requires AtMost(s, count)
    ensures Kept(s, count) == s
  {
    if s != [] {
      KeptAll(s[..|s| - 1], count);
      assert s[..|s| - 1] + [s[|s| - 1]] == s;
    }
  }

  /** One `AddIndex` call per element of s, in order. */
  function AddIndices(g: Geometry, s: seq<nat>): (r: Geometry)
    requires forall j | 0 <= j < |s| :: s[j] < U32_MODULUS
    ensures r.(indices := g.indices) == g
    ensures r.indices == g.indices + Kept(s, VertexCount(g))
  {
    if s == [] then g
    else
      var prefix := AddIndices(g, s[..|s| - 1]);
      var r := AddIndex(prefix, s[|s| - 1]);
      assert s[..|s| - 1] + [s[|s| - 1]] == s;
      r
  }

  /** Indices and vertices of `Terrain::Init` before `Gen`, for a given row
      stride. */
  function InitGeometry(h: seq<int>, xs: nat, zs: nat, stride: nat): (g: Geometry)
    requires xs >= 1 && zs >= 1 && |h| == xs * zs
    ensures HoldsSamples(g, h, xs, zs, xs * zs) && g.buffer == []
    ensures g.indices == Kept(GridIndices(xs, zs, stride, CellCount(xs, zs)), xs * zs)
  {
    AddIndices(GridVertices(h, xs, zs, xs * zs), GridIndices(xs, zs, stride, CellCount(xs, zs)))
  }

  /** With xSegments as the row stride, every index of cell (x, z) names a
      grid vertex. */
  lemma CellInRange(x: nat, z: nat, xs: nat, zs: nat)
    requires x + 1 < xs && z + 1 < zs && xs * zs < U32_MODULUS
    ensures forall j | 0 <= j < 6 :: CellIndices(x, z, xs, xs)[j] < xs * zs
  {
    MultiplyMonotone(z + 2, zs, xs);
    assert (z + 2) * xs == z * xs + 2 * xs;
  }

  /** With xSegments as the row stride, the grid's indices all name grid
      vertices, and there are six per cell. */
  lemma {:induction false} RowStrideIndicesInRange(xs: nat, zs: nat, c: nat)
    requires xs >= 1 && zs >= 1 && c <= CellCount(xs, zs) && xs * zs < U32_MODULUS
    ensures forall j | 0 <= j < |GridIndices(xs, zs, xs, c)| :: GridIndices(xs, zs, xs, c)[j] < xs * zs
  {
    if c > 0 {
      RowStrideIndicesInRange(xs, zs, c - 1);
      SplitGridIndex(c - 1, xs - 1, zs - 1);
      CellInRange(Column(c - 1, xs - 1), Row(c - 1, xs - 1), xs, zs);
    }
  }

  /** `Terrain::Init` with xSegments as the row stride: every one of the
      6 (xSegments - 1)(zSegments - 1) indices is kept by `AddIndex` and
      names a vertex. */
  lemma RowStrideInitIsValid(h: seq<int>, xs: nat, zs: nat)
    requires xs >= 1 && zs >= 1 && |h| == xs * zs && xs * zs < U32_MODULUS
    ensures InitGeometry(h, xs, zs, xs).indices == GridIndices(xs, zs, xs, CellCount(xs, zs))
    ensures |InitGeometry(h, xs, zs, xs).indices| == 6 * CellCount(xs, zs)
    ensures IndicesValid(InitGeometry(h, xs, zs, xs))
  {
    var s := GridIndices(xs, zs, xs, CellCount(xs, zs));
    RowStrideIndicesInRange(xs, zs, CellCount(xs, zs));
    KeptAll(s, xs * zs);
  }

  /** On a square grid the stride the source uses is the row length, so
      all 6 (n - 1)^2 indices name vertices and `AddIndex` keeps every one. */
  lemma SquareInitIsValid(h: seq<int>, n: nat)
    requires n >= 2 && |h| == n * n && n * n < U32_MODULUS
    ensures InitGeometry(h, n, n, n).indices == GridIndices(n, n, n, CellCount(n, n))
    ensures |InitGeometry(h, n, n, n).indices| == 6 * ((n - 1) * (n - 1))
    ensures IndicesValid(InitGeometry(h, n, n, n))
  {
    RowStrideInitIsValid(h, n, n);
  }

  /** With zSegments as the stride, a grid 2 wide and 3 deep gets index 6
      for its last triangle. Only 6 vertices exist, yet `AddIndex`'s bound
      lets 6 through, so the geometry ends up naming a vertex that is not
      there. */
  lemma ZStrideOverruns(h: seq<int>)
    requires |h| == 6
    ensures InitGeometry(h, 2, 3, 3).indices == [0, 2, 1, 1, 2, 3] + [3, 5, 4, 4, 5, 6]
    ensures !IndicesValid(InitGeometry(h, 2, 3, 3))
  {
    ZStrideIndices();
    var s := GridIndices(2, 3, 3, CellCount(2, 3));
    assert s[11] == 6;
    assert AtMost(s, 6) by {
      AtMostAppend([0, 2, 1, 1, 2, 3], [3, 5, 4, 4, 5, 6], 6);
    }
    KeptAll(s, 6);
    var g := InitGeometry(h, 2, 3, 3);
    assert g.indices[11] == 6 && VertexCount(g) == 6;
  }

  /** The indices of the 2 x 3 grid with zSegments as the stride. */
  lemma ZStrideIndices()
    ensures GridIndices(2, 3, 3, CellCount(2, 3)) == [0, 2, 1, 1, 2, 3] + [3, 5, 4, 4, 5, 6]
  {
    assert CellCount(2, 3) == 2;
    assert Column(0, 1) == 0 && Row(0, 1) == 0;
    assert Column(1, 1) == 0 && Row(1, 1) == 1;
    var first := CellIndices(0, 0, 2, 3);
    var second := CellIndices(0, 1, 2, 3);
    assert first == [0, 2, 1, 1, 2, 3];
    assert second == [3, 5, 4, 4, 5, 6];
    assert GridIndices(2, 3, 3, 0) == [];
    assert GridIndices(2, 3, 3, 1) == first by {
      assert GridIndices(2, 3, 3, 1) == [] + first;
      assert [] + first == first;
    }
    assert GridIndices(2, 3, 3, 2) == first + second;
  }

  // ---------------------------------------------------------------------
  // The terrain object

  datatype Terrain = Terrain(
    xSegments: nat,
    zSegments: nat,
    heights: seq<int>,
    geometry: Geometry,
    layout: Layouts.Layout)

  /** The constructor: sample the heights, build the grid (stride
      zSegments, as written), interleave it with `Gen` and describe the
      buffer with the normal layout. Both segment counts must be at least 1,
      because `m_zSegments - 1` and `m_xSegments - 1` are unsigned and would
      wrap; the height array's size must fit an `unsigned int`. */
  method NewTerrain(img: Images.Image, xs: nat, zs: nat) returns (t: Terrain)
    requires xs >= 1 && zs >= 1 && xs * zs < U32_MODULUS && Covers(img, xs, zs)
    ensures t.xSegments == xs && t.zSegments == zs
    ensures t.heights == HeightData(img, xs, zs)
    ensures HoldsSamples(t.geometry, t.heights, xs, zs, xs * zs)
    ensures t.geometry.indices == Kept(GridIndices(xs, zs, zs, CellCount(xs, zs)), xs * zs)
    ensures |t.geometry.buffer| == 14 * (xs * zs)
    ensures t.layout == Layouts.NormalLayout(ToU32(14 * (xs * zs)), ToU32(|t.geometry.indices|))
  {
    var heights := HeightData(img, xs, zs);
    var g0 := InitGeometry(heights, xs, zs, zs);
    var g := Gen(g0);
    t := Terrain(xs, zs, heights, g, Layouts.NormalLayout(BufferDataSize(g), IndicesSize(g)));
  }
}
